/** From points to query, to the mock driver's answer, to readings: one reading for every point, in order. */
module CollectionRoundTrip {
  import opened Models
  import opened Strings
  import opened JsonText
  import opened KeySearch
  import opened FieldText
  import opened CommandText
  import opened BraceScan
  import opened QueryText
  import opened MockDriver
  import opened ResponseParser
  import opened NumberText

  // ----- one object in the answer -----

  /** The pieces of one path's object: {"value":[v],...,"item_name":"name" */
  function FieldPiece(path: string, time: string, f: nat): Piece {
    if f == 0 then Piece("{", "value") else ItemPiece(path, false, time, f + 1)
  }

  function FieldPieces(path: string, time: string): (ps: seq<Piece>)
    ensures |ps| == 9
  {
    seq(9, f requires 0 <= f < 9 => FieldPiece(path, time, f))
  }

  function ObjectText(path: string, time: string): string {
    Text(FieldPieces(path, time), "}")
  }

  lemma {:induction false} RestTail(parts: seq<string>, i: nat, a: string, b: string)
    requires i <= |parts|
    ensures Rest(parts, i, a + b) == Rest(parts, i, a) + b
    decreases |parts| - i
  {
    if i == |parts| {
      assert Rest(parts, i, a + b) == a + b && Rest(parts, i, a) == a;
    } else {
      RestTail(parts, i + 1, a, b);
      Assoc(parts[i], Rest(parts, i + 1, a), b);
    }
  }

  /** Two texts whose pieces agree from the second on, where one is followed by more than the other. */
  lemma {:induction false} RestAgrees(ps: seq<Piece>, tail: string, m: nat,
                                      qs: seq<Piece>, qtail: string, after: string, f: nat)
    requires m + |qs| <= |ps| && f <= |qs|
    requires Rest(Rendered(ps), m + |qs|, tail) == qtail + after
    requires forall g | 1 <= g < |qs| :: ps[m + g] == qs[g]
    ensures f > 0 ==> Rest(Rendered(ps), m + f, tail) == Rest(Rendered(qs), f, qtail) + after
    decreases |qs| - f
  {
    hide PieceText;
    if 0 < f < |qs| {
      RestAgrees(ps, tail, m, qs, qtail, after, f + 1);
      assert ps[m + f] == qs[f];
      Assoc(PieceText(qs[f]), Rest(Rendered(qs), f + 1, qtail), after);
    }
  }

  lemma TextFromFirst(ps: seq<Piece>, tail: string)
    requires ps != []
    ensures Text(ps, tail) == PieceText(ps[0]) + Rest(Rendered(ps), 1, tail)
  {
    hide PieceText;
    TextCut(Rendered(ps), 0, tail);
    assert "" + Rest(Rendered(ps), 0, tail) == Rest(Rendered(ps), 0, tail);
  }

  lemma BracePiece(quoted: string)
    ensures InQuotes(":{", quoted) == ":" + InQuotes("{", quoted) && InQuotes("{", quoted) == "{" + InQuotes("", quoted)
  {
  }

  lemma GlueObject(quoted: string, more: string, after: string)
    ensures InQuotes(":{", quoted) + (more + after) == ":" + ((InQuotes("{", quoted) + more) + after)
  {
    hide InQuotes;
    BracePiece(quoted);
    Assoc(":", InQuotes("{", quoted), more + after);
    Assoc(InQuotes("{", quoted), more, after);
  }

  /** An object inside a text: after a colon stands its own text, then what follows it. */
  lemma ObjectFollows(ps: seq<Piece>, tail: string, m: nat, qs: seq<Piece>, qtail: string, after: string)
    requires qs != [] && m + |qs| <= |ps|
    requires Rest(Rendered(ps), m + |qs|, tail) == qtail + after
    requires forall g | 1 <= g < |qs| :: ps[m + g] == qs[g]
    requires ps[m] == Piece(":{", qs[0].str) && qs[0].raw == "{"
    ensures Rest(Rendered(ps), m, tail) == ":" + (Text(qs, qtail) + after)
  {
    hide Escaped, InQuotes, TextTo, Text;
    RestAgrees(ps, tail, m, qs, qtail, after, 1);
    TextFromFirst(qs, qtail);
    GlueObject(Escaped(qs[0].str), Rest(Rendered(qs), 1, qtail), after);
  }

  // ----- cutting the object out -----

  lemma {:induction false} PassPieces(fp: seq<Piece>, i: nat, rest: string, depth: int)
    requires i <= |fp| && depth >= 1 && forall f | i <= f < |fp| :: Quiet(fp[f].raw)
    ensures PassesOver(Rest(Rendered(fp), i, ""), rest, depth)
    decreases |fp| - i
  {
    hide Scan, Escaped, InQuotes;
    if i == |fp| {
      PassQuiet("", rest, depth);
    } else {
      var more := Rest(Rendered(fp), i + 1, "");
      PassPieces(fp, i + 1, rest, depth);
      PassQuoted(fp[i].raw, fp[i].str, more + rest, depth);
      PassTogether(PieceText(fp[i]), more, rest, depth);
    }
  }

  /** A text that opens with a brace, and what stands between it and the closing one. */
  lemma BracedShape(qs: seq<Piece>, tail: string)
    requires qs != [] && qs[0].raw == "{"
    ensures Text(qs, tail + "}") == "{" + ((InQuotes("", Escaped(qs[0].str)) + Rest(Rendered(qs), 1, tail)) + "}")
  {
    hide Escaped, InQuotes;
    var quoted, more := Escaped(qs[0].str), Rest(Rendered(qs), 1, tail);
    TextFromFirst(qs, tail + "}");
    RestTail(Rendered(qs), 1, tail, "}");
    BracePiece(quoted);
    Assoc("{", InQuotes("", quoted), more + "}");
    Assoc(InQuotes("", quoted), more, "}");
  }

  lemma BracedScan(qs: seq<Piece>, tail: string, after: string, depth: nat)
    requires qs != [] && qs[0].raw == "{"
    requires PassesOver(Rest(Rendered(qs), 1, tail), "}" + after, depth + 1)
    ensures Scan(Text(qs, tail + "}") + after, depth, false, false)
            == if depth == 0 then |Text(qs, tail + "}")|
               else Shifted(|Text(qs, tail + "}")|, Scan(after, depth, false, false))
  {
    hide Scan, Escaped, InQuotes, TextTo, Text;
    var first, more := InQuotes("", Escaped(qs[0].str)), Rest(Rendered(qs), 1, tail);
    BracedShape(qs, tail);
    PassQuoted("", qs[0].str, more + ("}" + after), depth + 1);
    PassTogether(first, more, "}" + after, depth + 1);
    PassBraces(first + more, after, depth);
  }

  lemma ObjectScan(fp: seq<Piece>, after: string, depth: nat)
    requires fp != [] && fp[0].raw == "{" && forall f | 1 <= f < |fp| :: Quiet(fp[f].raw)
    ensures Scan(Text(fp, "}") + after, depth, false, false)
            == if depth == 0 then |Text(fp, "}")| else Shifted(|Text(fp, "}")|, Scan(after, depth, false, false))
  {
    hide Scan, Text;
    assert "" + "}" == "}";
    PassPieces(fp, 1, "}" + after, depth + 1);
    BracedScan(fp, "", after, depth);
  }

  // ----- paths that can be asked for -----

  /** Trimmed, copied unchanged by the escaper, with a name after its last slash, and no item path of the mock. */
  predicate Addressable(path: string) {
    && '/' in path && path[|path| - 1] != '/'
    && Plain(path) && Trimmed(path, SPACES) && ']' !in path
    && path[0] !in STRUCTURAL && !(MOCK_ITEM <= path)
  }

  lemma SlashesOf(component: string, item: string)
    requires item != "" && '/' !in component && '/' !in item
    ensures var path := "/" + component + "/" + item;
            !(MOCK_ITEM <= path) && FindLastChar(path, '/') == |component| + 1 && path[|component| + 2..] == item
  {
    hide FindLastChar;
    var path := "/" + component + "/" + item;
    assert path[|component| + 1] == '/';
    assert forall i | |component| + 1 < i < |path| ::
             path[i] == item[i - |component| - 2] && item[i - |component| - 2] in item;
    assert forall i | 0 < i <= |component| :: path[i] == component[i - 1] && component[i - 1] in component;
    assert MOCK_ITEM[8] == '/' && MOCK_ITEM[16] == '/' && MOCK_ITEM[0] == '/';
  }

  /** The two-segment paths the model parser makes. */
  lemma TwoSegments(component: string, item: string)
    requires item != "" && '/' !in component && '/' !in item && ']' !in component && ']' !in item
    requires Plain(component) && Plain(item) && item[|item| - 1] !in SPACES
    ensures Addressable("/" + component + "/" + item) && ItemName("/" + component + "/" + item) == item
  {
    var path := "/" + component + "/" + item;
    assert path[|path| - 1] == item[|item| - 1] && item[|item| - 1] in item;
    assert path[0] == '/' && path[|component| + 1] == '/';
    SlashesOf(component, item);
    forall c | c in path ensures EscapedChar(c) == [c] {
      assert c == '/' || c in component || c in item;
    }
  }

  predicate Segment(s: string) {
    s != "" && '/' !in s && '"' !in s && OneLine(s)
  }

  lemma NameAfterSlash(path: string)
    requires '/' in path && path[|path| - 1] != '/'
    ensures ItemName(path) != "" && '/' !in ItemName(path) && forall c | c in ItemName(path) :: c in path
  {
    hide FindLastChar;
    var slash := FindLastChar(path, '/');
    var k :| 0 <= k < |path| && path[k] == '/';
    assert 0 <= slash < |path| - 1;
    assert forall i | slash < i < |path| :: path[i] != '/';
  }

  lemma PlainOneLine(s: string, path: string)
    requires Plain(path) && forall c | c in s :: c in path
    ensures '"' !in s && OneLine(s)
  {
    assert EscapedChar('"') != ['"'] && EscapedChar('\n') != ['\n'];
    assert EscapedChar('\r') != ['\r'] && EscapedChar('\t') != ['\t'];
  }

  lemma NameIsSegment(path: string)
    requires Addressable(path)
    ensures Segment(ItemName(path)) && Segment(Description(path))
  {
    hide ItemName, Contains, Plain;
    NameAfterSlash(path);
    PlainOneLine(ItemName(path), path);
  }

  // ----- nothing in the answer is taken for a path but its own key -----

  lemma SegmentMimics(s: string, path: string)
    requires '"' !in s && '/' !in s && Addressable(path)
    ensures !Mimics(s, path)
  {
    PlainMimic(s, path);
  }

  lemma MockItemMimics(name: string, path: string)
    requires Segment(name) && Addressable(path)
    ensures !Mimics(MOCK_ITEM + name, path)
  {
    assert '"' !in MOCK_ITEM;
    PlainMimic(MOCK_ITEM + name, path);
    assert MOCK_ITEM <= MOCK_ITEM + name;
  }

  lemma WordMimics(word: string, path: string)
    requires Addressable(path) && forall i | 0 <= i < |word| :: WordChar(word[i])
    ensures !Mimics(word, path)
  {
    hide Addressable, Mimics;
    SegmentMimics(word, path);
  }

  lemma SegmentFacts(s: string)
    requires Segment(s)
    ensures '/' !in s && '"' !in s && s != "" && Letters(s) == s
  {
    LettersExactly(s);
  }

  lemma ItemMimics(other: string, first: bool, time: string, f: nat, path: string)
    requires Addressable(other) && Addressable(path) && 1 <= f < 10
    ensures !Mimics(ItemPiece(other, first, time, f).str, path)
  {
    hide Mimics, Addressable, Segment, ItemName, Description;
    NameIsSegment(other);
    SegmentFacts(ItemName(other));
    SegmentFacts(Description(other));
    if f == 5 {
      MockItemMimics(ItemName(other), path);
    } else if f == 7 || f == 9 {
      SegmentMimics(ItemPiece(other, first, time, f).str, path);
    } else {
      WordMimics(ItemPiece(other, first, time, f).str, path);
    }
  }

  predicate Distinct(paths: seq<string>) {
    forall i, j | 0 <= i < j < |paths| :: paths[i] != paths[j]
  }

  predicate AllAddressable(paths: seq<string>) {
    forall i | 0 <= i < |paths| :: Addressable(paths[i])
  }

  lemma OtherPath(other: string, path: string)
    requires Addressable(other) && other != path
    ensures !Mimics(other, path)
  {
    assert EscapedChar('"') != ['"'];
    PlainMimic(other, path);
  }

  lemma EarlierPiece(cid: string, paths: seq<string>, time: string, i: nat, k: nat)
    requires i < |paths| && AllAddressable(paths) && Distinct(paths) && !Mimics(cid, paths[i]) && k < 4 + 10 * i
    ensures !Mimics(AnswerPieces(cid, paths, time)[k].str, paths[i])
  {
    hide Mimics, Addressable;
    var piece := AnswerPieces(cid, paths, time)[k];
    if k == 0 || k == 2 || k == 3 {
      SegmentMimics(piece.str, paths[i]);
    } else if k >= 4 {
      var j, f := (k - 4) / 10, (k - 4) % 10;
      if f == 0 { OtherPath(paths[j], paths[i]); } else { ItemMimics(paths[j], k < 14, time, f, paths[i]); }
    }
  }

  lemma OwnPiece(cid: string, paths: seq<string>, time: string, i: nat)
    requires i < |paths|
    ensures AnswerPieces(cid, paths, time)[4 + 10 * i].str == paths[i]
    ensures Mimics(AnswerPieces(cid, paths, time)[4 + 10 * i].str, paths[i])
  {
    hide AnswerPieces, ItemName, Description, ValueText;
    ItemsAt(cid, paths, time, i);
  }

  /** The search for a path ends at its own key. */
  lemma PathAt(cid: string, paths: seq<string>, time: string, i: nat)
    requires i < |paths| && AllAddressable(paths) && Distinct(paths) && !Mimics(cid, paths[i])
    ensures FirstMimic(AnswerPieces(cid, paths, time), paths[i], 0) == 4 + 10 * i
  {
    hide FirstMimic, Mimics, Addressable, ItemPiece;
    var ps := AnswerPieces(cid, paths, time);
    forall k: nat | k < 4 + 10 * i ensures !Mimics(ps[k].str, paths[i]) { EarlierPiece(cid, paths, time, i, k); }
    OwnPiece(cid, paths, time, i);
  }

  // ----- the object found for a path -----

  predicate TimeText(time: string) {
    NumberIn(time, NUMBER, ",")
  }

  lemma TimeQuiet(time: string)
    requires TimeText(time)
    ensures Quiet(":" + (time + ",")) && RawOk(":" + (time + ","))
  {
    var raw := ":" + (time + ",");
    forall i | 0 <= i < |raw| ensures raw[i] != '"' && raw[i] != '\\' && raw[i] != '{' && raw[i] != '}' {
      assert 0 < i <= |time| ==> raw[i] == time[i - 1] && time[i - 1] in NUMBER;
    }
  }

  lemma ItemRawOk(path: string, first: bool, time: string, f: nat)
    requires TimeText(time)
    ensures RawOk(ItemPiece(path, first, time, f).raw)
    ensures f != 0 && f != 1 ==> Quiet(ItemPiece(path, first, time, f).raw)
  {
    hide ItemName, Description, Contains, TimeText;
    TimeQuiet(time);
  }

  lemma HeadRawOk(cid: string, paths: seq<string>, time: string, k: nat)
    requires k < 4
    ensures RawOk(AnswerPieces(cid, paths, time)[k].raw)
  {
  }

  lemma AnswerWellFormed(cid: string, paths: seq<string>, time: string)
    requires TimeText(time)
    ensures WellFormed(AnswerPieces(cid, paths, time))
  {
    hide TimeText, ItemPiece, RawOk;
    forall k: nat | k < 4 + 10 * |paths| ensures RawOk(AnswerPieces(cid, paths, time)[k].raw) {
      if k >= 4 { ItemRawOk(paths[(k - 4) / 10], k < 14, time, (k - 4) % 10); } else { HeadRawOk(cid, paths, time, k); }
    }
  }

  /** Whether another item follows or the answer ends, the next character closes the object. */
  lemma CloseFollows(cid: string, paths: seq<string>, time: string, i: nat) returns (after: string)
    requires i < |paths|
    ensures Rest(Rendered(AnswerPieces(cid, paths, time)), 14 + 10 * i, "}}}") == "}" + after
  {
    hide Escaped;
    var ps := AnswerPieces(cid, paths, time);
    if i + 1 == |paths| {
      after := "}}";
    } else {
      var rest := Rest(Rendered(ps), 15 + 10 * i, "}}}");
      ItemsAt(cid, paths, time, i + 1);
      assert ps[14 + 10 * i] == ItemPiece(paths[i + 1], false, time, 0);
      after := InQuotes(",", Escaped(paths[i + 1])) + rest;
      assert InQuotes("},", Escaped(paths[i + 1])) == "}" + InQuotes(",", Escaped(paths[i + 1]));
      Assoc("}", InQuotes(",", Escaped(paths[i + 1])), rest);
    }
  }

  lemma ObjectPieces(cid: string, paths: seq<string>, time: string, i: nat)
    requires i < |paths|
    ensures var ps, fp, m := AnswerPieces(cid, paths, time), FieldPieces(paths[i], time), 4 + 10 * i;
            && fp[0] == Piece("{", "value") && ps[m + 1] == Piece(":{", "value")
            && forall g | 1 <= g < 9 :: ps[m + 1 + g] == fp[g]
  {
    ItemsAt(cid, paths, time, i);
    var ps, fp, m := AnswerPieces(cid, paths, time), FieldPieces(paths[i], time), 4 + 10 * i;
    forall g | 1 <= g < 9 ensures ps[m + 1 + g] == fp[g] {
      assert ps[m + 1 + g] == ItemPiece(paths[i], i == 0, time, g + 1);
    }
  }

  lemma ObjectOpens(fp: seq<Piece>)
    requires fp != [] && fp[0].raw == "{"
    ensures Text(fp, "}") != "" && Text(fp, "}")[0] == '{'
  {
    hide Escaped, Text;
    assert "" + "}" == "}";
    BracedShape(fp, "");
  }

  lemma ObjectFound(cid: string, paths: seq<string>, time: string, i: nat)
    requires i < |paths| && TimeText(time)
    ensures ObjectAfter(Text(AnswerPieces(cid, paths, time), "}}}"), End(AnswerPieces(cid, paths, time), 4 + 10 * i))
            == ObjectText(paths[i], time)
  {
    hide ObjectAfter, Text, TextTo, TimeText, ItemPiece, Scan, Quiet, RawOk, AnswerPieces, Escaped;
    var ps, fp, m := AnswerPieces(cid, paths, time), FieldPieces(paths[i], time), 4 + 10 * i;
    TextAfter(ps, "}}}", m);
    var after := CloseFollows(cid, paths, time, i);
    ObjectPieces(cid, paths, time, i);
    ObjectFollows(ps, "}}}", m + 1, fp, "}", after);
    ObjectAfterCut(TextTo(Rendered(ps), m + 1), Rest(Rendered(ps), m + 1, "}}}"));
    forall f | 1 <= f < 9 ensures Quiet(fp[f].raw) { ItemRawOk(paths[i], false, time, f + 1); }
    ObjectScan(fp, after, 0);
    ObjectOpens(fp);
    ObjectHere(":", Text(fp, "}"), after);
  }

  lemma PathKeyOk(path: string)
    requires Addressable(path)
    ensures KeyOk(path)
  {
  }

  /** What the scanner cuts out for a path is that path's object. */
  lemma ObjectForPath(cid: string, paths: seq<string>, time: string, i: nat)
    requires i < |paths| && TimeText(time)
    requires AllAddressable(paths) && Distinct(paths) && !Mimics(cid, paths[i])
    ensures ObjectFor(Text(AnswerPieces(cid, paths, time), "}}}"), paths[i]) == ObjectText(paths[i], time)
  {
    hide ObjectAfter, Text, Addressable, Mimics, TimeText, FirstMimic, WellFormed, KeyOk, AnswerPieces, Distinct, ObjectText;
    AnswerWellFormed(cid, paths, time);
    PathKeyOk(paths[i]);
    PathAt(cid, paths, time, i);
    SearchEnds(AnswerPieces(cid, paths, time), "}}}", paths[i], 4 + 10 * i);
    ObjectFound(cid, paths, time, i);
  }

  // ----- what is read out of a text that opens with an item -----

  /** From piece o on, ps prints the item of a path; before it stands at most the path itself. */
  predicate HoldsItem(ps: seq<Piece>, o: nat, path: string, time: string) {
    && o <= 1 && o + 9 <= |ps|
    && (o == 1 ==> '"' !in ps[0].str && '/' in ps[0].str)
    && forall k | o <= k < o + 9 ::
         ps[k].str == FieldPiece(path, time, k - o).str && (k > o ==> ps[k].raw == FieldPiece(path, time, k - o).raw)
  }

  lemma ItemWords(ps: seq<Piece>, o: nat, path: string, time: string)
    requires HoldsItem(ps, o, path, time)
    ensures ps[o].str == "value" && ps[o + 1].str == "dev_time" && ps[o + 2].str == "svr_time"
    ensures ps[o + 3].str == "item_path" && ps[o + 5].str == "item_description"
    ensures ps[o + 4] == Piece(":", MOCK_ITEM + ItemName(path)) && ps[o + 6] == Piece(":", Description(path))
    ensures ps[o + 7] == Piece(",", "item_name") && ps[o + 8] == Piece(":", ItemName(path))
    ensures ps[o + 1].raw == ":[" + ValueText(path) + "],"
    ensures ps[o + 2].raw == ":" + (time + ",") && ps[o + 3].raw == ":" + (time + ",")
  {
    hide ItemName, Description, ValueText;
  }

  lemma FieldsHoldItem(path: string, time: string)
    ensures HoldsItem(FieldPieces(path, time), 0, path, time)
  {
  }

  lemma FieldKeysOk()
    ensures KeyOk("value") && KeyOk("dev_time") && KeyOk("svr_time")
    ensures KeyOk("item_path") && KeyOk("item_description") && KeyOk("item_name")
  {
    hide Plain;
    AnswerWords();
  }

  lemma WordMimicsKey(word: string, key: string)
    requires forall i | 0 <= i < |word| :: WordChar(word[i])
    ensures Mimics(word, key) <==> word == key
  {
    hide Mimics;
    PlainMimic(word, key);
  }

  lemma MockItemMimicsKey(name: string, key: string)
    requires '"' !in name && key != "" && WordChar(key[0])
    ensures !Mimics(MOCK_ITEM + name, key)
  {
    hide Mimics;
    assert (MOCK_ITEM + name)[0] == '/' && '"' !in MOCK_ITEM;
    PlainMimic(MOCK_ITEM + name, key);
  }

  /** The path in front of an item is no field name. */
  lemma FrontMimicsNoKey(ps: seq<Piece>, o: nat, path: string, time: string, key: string)
    requires HoldsItem(ps, o, path, time) && forall i | 0 <= i < |key| :: WordChar(key[i])
    ensures forall k | 0 <= k < o :: !Mimics(ps[k].str, key)
  {
    hide Mimics;
    if o == 1 { PlainMimic(ps[0].str, key); }
  }

  lemma TimesMimicNothing(key: string)
    requires key == "item_path" || key == "item_description" || key == "item_name"
    ensures !Mimics("value", key) && !Mimics("dev_time", key) && !Mimics("svr_time", key)
  {
    hide Mimics;
    WordMimicsKey("value", key);
    WordMimicsKey("dev_time", key);
    WordMimicsKey("svr_time", key);
  }

  lemma HoldsBounds(ps: seq<Piece>, o: nat, path: string, time: string)
    requires HoldsItem(ps, o, path, time)
    ensures o <= 1 && o + 9 <= |ps|
  {
  }

  lemma PathFieldLeads(ps: seq<Piece>, o: nat, path: string, time: string)
    requires HoldsItem(ps, o, path, time)
    ensures Leads(ps, "item_path", o + 4)
  {
    hide Mimics, ItemName, Description, HoldsItem;
    ItemWords(ps, o, path, time);
    FrontMimicsNoKey(ps, o, path, time, "item_path");
    TimesMimicNothing("item_path");
    HoldsBounds(ps, o, path, time);
    LeadsBy(ps, "item_path", o + 3, o + 4);
  }

  /** The five strings before the description's key, and the path in front of them. */
  lemma EarlyStrings(ps: seq<Piece>, o: nat, path: string, time: string, key: string)
    requires HoldsItem(ps, o, path, time) && Addressable(path) && (key == "item_description" || key == "item_name")
    ensures forall k | 0 <= k < o + 5 :: !Mimics(ps[k].str, key)
  {
    hide Mimics, ItemName, Description, HoldsItem, Addressable;
    ItemWords(ps, o, path, time);
    NameIsSegment(path);
    MockItemMimicsKey(ItemName(path), key);
    FrontMimicsNoKey(ps, o, path, time, key);
    TimesMimicNothing(key);
    WordMimicsKey("item_path", key);
    HoldsBounds(ps, o, path, time);
  }

  lemma DescriptionFieldLeads(ps: seq<Piece>, o: nat, path: string, time: string)
    requires HoldsItem(ps, o, path, time) && Addressable(path)
    ensures Leads(ps, "item_description", o + 6)
  {
    hide Mimics, ItemName, Description, HoldsItem, Addressable, Leads;
    ItemWords(ps, o, path, time);
    HoldsBounds(ps, o, path, time);
    EarlyStrings(ps, o, path, time, "item_description");
    LeadsBy(ps, "item_description", o + 5, o + 6);
  }

  /** The description may itself be the word item_name: the colon read next is still the right one. */
  lemma NameFieldLeads(ps: seq<Piece>, o: nat, path: string, time: string)
    requires HoldsItem(ps, o, path, time) && Addressable(path)
    ensures Leads(ps, "item_name", o + 8)
  {
    hide Mimics, ItemName, Description, HoldsItem, Addressable, Leads;
    ItemWords(ps, o, path, time);
    HoldsBounds(ps, o, path, time);
    EarlyStrings(ps, o, path, time, "item_name");
    WordMimicsKey("item_description", "item_name");
    LeadsBy(ps, "item_name", o + 6, o + 8);
  }

  lemma NumberKeysAt(ps: seq<Piece>, o: nat, path: string, time: string)
    requires HoldsItem(ps, o, path, time)
    ensures FirstMimic(ps, "value", 0) == o && FirstMimic(ps, "dev_time", 0) == o + 1
    ensures FirstMimic(ps, "svr_time", 0) == o + 2
  {
    hide Mimics, FirstMimic, HoldsItem;
    ItemWords(ps, o, path, time);
    FrontMimicsNoKey(ps, o, path, time, "value");
    FrontMimicsNoKey(ps, o, path, time, "dev_time");
    FrontMimicsNoKey(ps, o, path, time, "svr_time");
    HoldsBounds(ps, o, path, time);
    WordMimicsKey("value", "value");
    WordMimicsKey("value", "dev_time");
    WordMimicsKey("value", "svr_time");
    WordMimicsKey("dev_time", "dev_time");
    WordMimicsKey("dev_time", "svr_time");
    WordMimicsKey("svr_time", "svr_time");
    assert Mimics(ps[o].str, "value") && Mimics(ps[o + 1].str, "dev_time") && Mimics(ps[o + 2].str, "svr_time");
  }

  lemma ValueInside(path: string)
    ensures ':' !in ValueText(path) && '[' !in ValueText(path) && ']' !in ValueText(path)
    ensures ":[" + ValueText(path) + "]," == ":[" + (ValueText(path) + ("]" + ","))
  {
  }

  lemma NumbersDecoded(ps: seq<Piece>, tail: string, o: nat, path: string, time: string)
    requires HoldsItem(ps, o, path, time) && WellFormed(ps) && '"' !in tail && TimeText(time)
    ensures ArrayField(Text(ps, tail), "value") == "[" + ValueText(path) + "]"
    ensures NumberField(Text(ps, tail), "dev_time", NUMBER) == Some(time)
    ensures NumberField(Text(ps, tail), "svr_time", NUMBER) == Some(time)
  {
    hide FirstMimic, ArrayField, NumberField, WellFormed, KeyOk, NumberIn, ValueText, Text, HoldsItem;
    ItemWords(ps, o, path, time);
    FieldKeysOk();
    NumberKeysAt(ps, o, path, time);
    ValueInside(path);
    HoldsBounds(ps, o, path, time);
    ArrayDecoded(ps, tail, "value", o, ValueText(path), ",");
    NumberDecoded(ps, tail, "dev_time", o + 1, NUMBER, time, ",");
    NumberDecoded(ps, tail, "svr_time", o + 2, NUMBER, time, ",");
  }

  lemma MockItemLetters(name: string)
    requires Letters(name) == name
    ensures Letters(MOCK_ITEM + name) == MOCK_ITEM + name
  {
    LettersExactly(name);
    LettersExactly(MOCK_ITEM + name);
    assert OneLine(MOCK_ITEM);
  }

  lemma TextsDecoded(ps: seq<Piece>, tail: string, o: nat, path: string, time: string)
    requires HoldsItem(ps, o, path, time) && WellFormed(ps) && '"' !in tail && Addressable(path)
    ensures StringField(Text(ps, tail), "item_path") == MOCK_ITEM + ItemName(path)
    ensures StringField(Text(ps, tail), "item_description") == Description(path) != ""
    ensures StringField(Text(ps, tail), "item_name") == ItemName(path) != ""
  {
    hide Leads, FieldValue, WellFormed, KeyOk, Text, Letters, Addressable, ItemName, Description, HoldsItem;
    ItemWords(ps, o, path, time);
    FieldKeysOk();
    PathFieldLeads(ps, o, path, time);
    DescriptionFieldLeads(ps, o, path, time);
    NameFieldLeads(ps, o, path, time);
    HoldsBounds(ps, o, path, time);
    FieldDecoded(ps, tail, "item_path", o + 4);
    FieldDecoded(ps, tail, "item_description", o + 6);
    FieldDecoded(ps, tail, "item_name", o + 8);
    NameIsSegment(path);
    SegmentFacts(ItemName(path));
    SegmentFacts(Description(path));
    MockItemLetters(ItemName(path));
  }

  /** The reading every point should give. */
  function Expected(deviceName: string, path: string, time: string): Reading {
    Reading(
      deviceName, path, "[" + ValueText(path) + "]", Some(time), Some(time),
      MOCK_ITEM + ItemName(path), ItemName(path), Description(path))
  }

  /** A point that is given a text which opens with some path's item is given that path's reading. */
  lemma ItemReading(deviceName: string, point: DataPoint, ps: seq<Piece>, tail: string, o: nat, path: string, time: string)
    requires HoldsItem(ps, o, path, time) && WellFormed(ps) && '"' !in tail && Addressable(path) && TimeText(time)
    ensures ReadingOf(deviceName, point, Text(ps, tail)) == Expected(deviceName, path, time).(namePath := point.namePath)
  {
    hide ArrayField, NumberField, StringField, Text, HoldsItem, WellFormed;
    hide TimeText, Addressable, ItemName, Description, ValueText;
    NumbersDecoded(ps, tail, o, path, time);
    TextsDecoded(ps, tail, o, path, time);
  }

  lemma BraceRawOk()
    ensures RawOk("{")
  {
  }

  lemma FieldsWellFormed(path: string, time: string)
    requires TimeText(time)
    ensures WellFormed(FieldPieces(path, time))
  {
    hide ItemPiece, RawOk, TimeText;
    forall f: nat | f < 9 ensures RawOk(FieldPieces(path, time)[f].raw) {
      if f == 0 { BraceRawOk(); } else { ItemRawOk(path, false, time, f + 1); }
    }
  }

  lemma ObjectReading(deviceName: string, point: DataPoint, time: string)
    requires Addressable(point.namePath) && TimeText(time)
    ensures ReadingOf(deviceName, point, ObjectText(point.namePath, time)) == Expected(deviceName, point.namePath, time)
  {
    hide Text, TimeText, Addressable, HoldsItem, WellFormed, ReadingOf, FieldPieces;
    FieldsHoldItem(point.namePath, time);
    FieldsWellFormed(point.namePath, time);
    ItemReading(deviceName, point, FieldPieces(point.namePath, time), "}", 0, point.namePath, time);
  }

  // ----- when the cid is taken for a path -----

  /** The pieces of the whole data object: {"path":{...},"path":{...} */
  function DataPiece(paths: seq<string>, time: string, k: nat): Piece
    requires k < 10 * |paths|
  {
    if k == 0 then Piece("{", paths[0]) else ItemPiece(paths[k / 10], k < 10, time, k % 10)
  }

  function DataPieces(paths: seq<string>, time: string): (ps: seq<Piece>)
    ensures |ps| == 10 * |paths|
  {
    seq(10 * |paths|, k requires 0 <= k < 10 * |paths| => DataPiece(paths, time, k))
  }

  function DataText(paths: seq<string>, time: string): string {
    Text(DataPieces(paths, time), "}}")
  }

  lemma DataItemsAt(paths: seq<string>, time: string, i: nat)
    requires i < |paths|
    ensures forall j | 10 * i < j < 10 * i + 10 ::
              DataPieces(paths, time)[j] == ItemPiece(paths[i], i == 0, time, j - 10 * i)
    ensures i > 0 ==> DataPieces(paths, time)[10 * i] == Piece("},", paths[i])
  {
    hide ItemName, Description, ValueText;
  }

  lemma DataObjectPieces(paths: seq<string>, time: string, i: nat)
    requires i < |paths|
    ensures var dp, fp, m := DataPieces(paths, time), FieldPieces(paths[i], time), 10 * i + 1;
            && fp[0] == Piece("{", "value") && dp[m] == Piece(":{", "value")
            && forall g | 1 <= g < 9 :: dp[m + g] == fp[g]
  {
    hide ItemName, Description, ValueText, DataPieces;
    DataItemsAt(paths, time, i);
    var dp, fp, m := DataPieces(paths, time), FieldPieces(paths[i], time), 10 * i + 1;
    forall g | 1 <= g < 9 ensures dp[m + g] == fp[g] {
      assert dp[m + g] == ItemPiece(paths[i], i == 0, time, g + 1);
    }
  }

  /** What stands in the data object after the item of path i and its closing brace. */
  function AfterItem(paths: seq<string>, time: string, i: nat): string
    requires i < |paths|
  {
    if i + 1 == |paths| then ""
    else InQuotes(",", Escaped(paths[i + 1])) + Rest(Rendered(DataPieces(paths, time)), 10 * (i + 1) + 1, "}")
  }

  lemma DataCloses(paths: seq<string>, time: string, i: nat)
    requires i < |paths|
    ensures Rest(Rendered(DataPieces(paths, time)), 10 * i + 10, "}") == "}" + AfterItem(paths, time, i)
  {
    hide Escaped, DataPieces;
    var dp := DataPieces(paths, time);
    if i + 1 < |paths| {
      DataItemsAt(paths, time, i + 1);
      var quoted := Escaped(paths[i + 1]);
      assert InQuotes("},", quoted) == "}" + InQuotes(",", quoted);
      Assoc("}", InQuotes(",", quoted), Rest(Rendered(dp), 10 * (i + 1) + 1, "}"));
    }
  }

  lemma PassColon(rest: string)
    ensures PassesOver(":", rest, 1)
  {
    hide Scan;
    PassQuiet(":", rest, 1);
  }

  lemma PassObject(path: string, time: string, rest: string)
    requires TimeText(time)
    ensures PassesOver(Text(FieldPieces(path, time), "}"), rest, 1)
  {
    hide Scan, Text, TimeText, Quiet, ItemPiece;
    var fp := FieldPieces(path, time);
    forall f | 1 <= f < 9 ensures Quiet(fp[f].raw) { ItemRawOk(path, false, time, f + 1); }
    ObjectScan(fp, rest, 1);
  }

  /** The items from i on, after the key of item i, are passed over inside the data object. */
  lemma {:induction false} PassDataItems(paths: seq<string>, time: string, i: nat, rest: string)
    requires i < |paths| && TimeText(time)
    ensures PassesOver(Rest(Rendered(DataPieces(paths, time)), 10 * i + 1, "}"), rest, 1)
    decreases |paths| - i
  {
    hide Scan, Text, TimeText, DataPieces, AfterItem, Quiet;
    var dp, fp, after := DataPieces(paths, time), FieldPieces(paths[i], time), AfterItem(paths, time, i);
    DataCloses(paths, time, i);
    DataObjectPieces(paths, time, i);
    ObjectFollows(dp, "}", 10 * i + 1, fp, "}", after);
    PassAfterItem(paths, time, i, rest);
    PassObject(paths[i], time, after + rest);
    PassTogether(Text(fp, "}"), after, rest, 1);
    PassColon((Text(fp, "}") + after) + rest);
    PassTogether(":", Text(fp, "}") + after, rest, 1);
  }

  lemma {:induction false} PassAfterItem(paths: seq<string>, time: string, i: nat, rest: string)
    requires i < |paths| && TimeText(time)
    ensures PassesOver(AfterItem(paths, time, i), rest, 1)
    decreases |paths| - i, 0
  {
    hide Scan, TimeText, DataPieces, Escaped, InQuotes, Rest;
    if i + 1 == |paths| {
      PassQuiet("", rest, 1);
    } else {
      var more := Rest(Rendered(DataPieces(paths, time)), 10 * (i + 1) + 1, "}");
      PassDataItems(paths, time, i + 1, rest);
      PassQuoted(",", paths[i + 1], more + rest, 1);
      PassTogether(InQuotes(",", Escaped(paths[i + 1])), more, rest, 1);
    }
  }

  lemma DataFirst(cid: string, paths: seq<string>, time: string)
    requires paths != []
    ensures AnswerPieces(cid, paths, time)[4] == Piece(":{", paths[0]) && DataPieces(paths, time)[0] == Piece("{", paths[0])
  {
    hide ItemName, Description, ValueText;
  }

  lemma DataFollows(cid: string, paths: seq<string>, time: string)
    requires paths != []
    ensures Rest(Rendered(AnswerPieces(cid, paths, time)), 4, "}}}") == ":" + (DataText(paths, time) + "}")
  {
    hide Text, ItemPiece;
    var ps, dp := AnswerPieces(cid, paths, time), DataPieces(paths, time);
    assert "}}" + "}" == "}}}";
    DataFirst(cid, paths, time);
    forall g | 1 <= g < |dp| ensures ps[4 + g] == dp[g] { }
    ObjectFollows(ps, "}}}", 4, dp, "}}", "}");
  }

  lemma DataScan(paths: seq<string>, time: string, after: string)
    requires paths != [] && TimeText(time)
    ensures Scan(DataText(paths, time) + after, 0, false, false) == |DataText(paths, time)|
    ensures DataText(paths, time) != "" && DataText(paths, time)[0] == '{'
  {
    hide Scan, Text, TimeText, DataPieces, Escaped;
    assert "}" + "}" == "}}";
    DataFirst("", paths, time);
    PassDataItems(paths, time, 0, "}" + after);
    BracedScan(DataPieces(paths, time), "}", after, 0);
    BracedShape(DataPieces(paths, time), "}");
  }

  /** The text between the cid and the data object holds no brace. */
  lemma BeforeData(cid: string, paths: seq<string>, time: string, found: string)
    requires Rest(Rendered(AnswerPieces(cid, paths, time)), 4, "}}}") == ":" + found
    ensures var before := InQuotes(",", "machineConnected") + InQuotes(":true,", "data") + ":";
            '{' !in before && Rest(Rendered(AnswerPieces(cid, paths, time)), 2, "}}}") == before + found
  {
    hide Plain, Escaped;
    AnswerWords();
    EscapedPlain("machineConnected");
    EscapedPlain("data");
    var a, b := InQuotes(",", "machineConnected"), InQuotes(":true,", "data");
    assert '{' !in a && '{' !in b;
    assert Rest(Rendered(AnswerPieces(cid, paths, time)), 2, "}}}") == a + (b + (":" + found));
    Assoc(b, ":", found);
    Assoc(a, b + ":", found);
    Assoc(a, b, ":");
  }

  lemma DataFound(cid: string, paths: seq<string>, time: string)
    requires paths != [] && TimeText(time)
    ensures ObjectAfter(Text(AnswerPieces(cid, paths, time), "}}}"), End(AnswerPieces(cid, paths, time), 1))
            == DataText(paths, time)
  {
    hide Scan, Text, TextTo, TimeText, AnswerPieces, DataText, ObjectAfter, Rest, InQuotes;
    var ps := AnswerPieces(cid, paths, time);
    TextAfter(ps, "}}}", 1);
    ObjectAfterCut(TextTo(Rendered(ps), 2), Rest(Rendered(ps), 2, "}}}"));
    DataFollows(cid, paths, time);
    BeforeData(cid, paths, time, DataText(paths, time) + "}");
    DataScan(paths, time, "}");
    ObjectHere(InQuotes(",", "machineConnected") + InQuotes(":true,", "data") + ":", DataText(paths, time), "}");
  }

  lemma CidAt(cid: string, paths: seq<string>, time: string, path: string)
    requires Mimics(cid, path) && Addressable(path)
    ensures FirstMimic(AnswerPieces(cid, paths, time), path, 0) == 1
  {
    hide Mimics, Addressable, FirstMimic;
    var ps := AnswerPieces(cid, paths, time);
    WordMimics("cid", path);
    assert ps[0].str == "cid" && ps[1].str == cid;
  }

  /** A path that is found in the cid is given the whole data object. */
  lemma DataForPath(cid: string, paths: seq<string>, time: string, i: nat)
    requires i < |paths| && TimeText(time) && AllAddressable(paths) && Mimics(cid, paths[i])
    ensures ObjectFor(Text(AnswerPieces(cid, paths, time), "}}}"), paths[i]) == DataText(paths, time)
  {
    hide ObjectAfter, Text, Addressable, Mimics, TimeText, FirstMimic, WellFormed, KeyOk, AnswerPieces, DataText;
    AnswerWellFormed(cid, paths, time);
    PathKeyOk(paths[i]);
    CidAt(cid, paths, time, paths[i]);
    SearchEnds(AnswerPieces(cid, paths, time), "}}}", paths[i], 1);
    DataFound(cid, paths, time);
  }

  lemma DataWellFormed(paths: seq<string>, time: string)
    requires TimeText(time)
    ensures WellFormed(DataPieces(paths, time))
  {
    hide TimeText, ItemPiece, RawOk;
    forall k: nat | k < 10 * |paths| ensures RawOk(DataPieces(paths, time)[k].raw) {
      if k == 0 { BraceRawOk(); } else { ItemRawOk(paths[k / 10], k < 10, time, k % 10); }
    }
  }

  lemma PathFacts(path: string)
    requires Addressable(path)
    ensures '"' !in path && '/' in path
  {
    assert EscapedChar('"') != ['"'];
  }

  lemma DataHoldsFirst(paths: seq<string>, time: string)
    requires paths != [] && Addressable(paths[0])
    ensures HoldsItem(DataPieces(paths, time), 1, paths[0], time)
  {
    hide ItemName, Description, ValueText, DataPieces;
    DataFirst("", paths, time);
    DataItemsAt(paths, time, 0);
    PathFacts(paths[0]);
  }

  /** So the point is given the first path's reading under its own name path. */
  lemma DataReading(deviceName: string, point: DataPoint, paths: seq<string>, time: string)
    requires paths != [] && Addressable(paths[0]) && TimeText(time)
    ensures ReadingOf(deviceName, point, DataText(paths, time))
            == Expected(deviceName, paths[0], time).(namePath := point.namePath)
  {
    hide Text, TimeText, Addressable, HoldsItem, WellFormed, ReadingOf, DataPieces, Expected;
    DataHoldsFirst(paths, time);
    DataWellFormed(paths, time);
    ItemReading(deviceName, point, DataPieces(paths, time), "}}", 1, paths[0], time);
  }

  // ----- the whole exchange -----

  /** What point i is given: its own reading, or the first point's when its path is found in the cid. */
  function Given(deviceName: string, paths: seq<string>, cid: string, time: string, i: nat): Reading
    requires i < |paths|
  {
    Expected(deviceName, if Mimics(cid, paths[i]) then paths[0] else paths[i], time).(namePath := paths[i])
  }

  lemma ExpectedPath(deviceName: string, path: string, time: string)
    ensures Expected(deviceName, path, time).namePath == path
    ensures Expected(deviceName, path, time).data != ""
  {
  }

  lemma ObjectNotEmpty(deviceName: string, path: string, time: string)
    ensures ObjectText(path, time) != "" && Expected(deviceName, path, time).data != ""
  {
    hide Text, ItemName, Description, ValueText;
    ObjectOpens(FieldPieces(path, time));
  }

  lemma PointReading(deviceName: string, points: seq<DataPoint>, cid: string, time: string, i: nat)
    requires i < |points| && TimeText(time)
    requires AllAddressable(NamePaths(points)) && Distinct(NamePaths(points))
    ensures var found := ObjectFor(Text(AnswerPieces(cid, NamePaths(points), time), "}}}"), points[i].namePath);
            found != "" && ReadingOf(deviceName, points[i], found) == Given(deviceName, NamePaths(points), cid, time, i)
  {
    hide Text, Addressable, Distinct, Mimics, TimeText, ObjectText, DataText, ObjectFor, AnswerPieces, Expected, ReadingOf;
    var paths := NamePaths(points);
    assert paths[i] == points[i].namePath;
    if Mimics(cid, paths[i]) {
      DataForPath(cid, paths, time, i);
      DataReading(deviceName, points[i], paths, time);
      DataScan(paths, time, "");
    } else {
      ObjectForPath(cid, paths, time, i);
      ObjectReading(deviceName, points[i], time);
      ObjectNotEmpty(deviceName, paths[i], time);
      ExpectedPath(deviceName, paths[i], time);
    }
  }

  lemma {:induction false} ReadingsOfAnswer(deviceName: string, points: seq<DataPoint>, cid: string, time: string, n: nat)
    requires n <= |points| && TimeText(time)
    requires AllAddressable(NamePaths(points)) && Distinct(NamePaths(points))
    ensures var text := Text(AnswerPieces(cid, NamePaths(points), time), "}}}");
            var readings := Readings(deviceName, points[..n], text);
            && |readings| == n
            && forall i | 0 <= i < n :: readings[i] == Given(deviceName, NamePaths(points), cid, time, i)
    decreases n
  {
    hide Text, Addressable, Distinct, Mimics, TimeText, ObjectFor, AnswerPieces, Expected, ReadingOf;
    if n == 0 {
    } else {
      ReadingsOfAnswer(deviceName, points, cid, time, n - 1);
      assert points[..n][..n - 1] == points[..n - 1] && points[..n][n - 1] == points[n - 1];
      PointReading(deviceName, points, cid, time, n - 1);
      var path := NamePaths(points)[n - 1];
      ExpectedPath(deviceName, if Mimics(cid, path) then NamePaths(points)[0] else path, time);
    }
  }

  lemma PathsCarried(paths: seq<string>)
    requires paths != [] && AllAddressable(paths)
    ensures Received(paths) == paths
  {
    hide Trimmed;
    ReceivedExactly(paths);
    forall i | 0 <= i < |paths| ensures Carried(paths[i]) { PlainOneLine(paths[i], paths[i]); }
  }

  /** The echoed cid is the collector's own, letter for letter. */
  function CidBack(cid: string): string {
    if cid == "" then "mock-cid" else Letters(cid)
  }

  lemma LettersLength(s: string)
    ensures |Letters(s)| == |s|
  {
  }

  lemma AnswerToQuery(cid: string, paths: seq<string>, time: string)
    requires paths != [] && AllAddressable(paths)
    ensures Answer(QueryFor(cid, paths), time) == Text(AnswerPieces(CidBack(cid), paths, time), "}}}")
  {
    hide Text, AnswerPieces, FieldValue, AllAddressable, QueryPaths, OpenStringField, Received, Letters, QueryFor;
    QueryReceived(cid, paths);
    PathsCarried(paths);
    CidReceived(cid, paths);
    OpenFieldClosed(QueryFor(cid, paths), "cid");
    LettersLength(cid);
  }

  /** For every cid: each point is given exactly one reading, in order. */
  lemma AnyCidReadings(deviceName: string, points: seq<DataPoint>, cid: string, time: string)
    requires points != [] && TimeText(time)
    requires AllAddressable(NamePaths(points)) && Distinct(NamePaths(points))
    ensures var paths := NamePaths(points);
            var readings := Readings(deviceName, points, Answer(QueryFor(cid, paths), time));
            && |readings| == |points|
            && forall i | 0 <= i < |points| :: readings[i] == Given(deviceName, paths, CidBack(cid), time, i)
  {
    hide Text, Addressable, Distinct, Mimics, TimeText, AnswerPieces, Given, Answer, CidBack, QueryFor, Readings;
    AnswerToQuery(cid, NamePaths(points), time);
    ReadingsOfAnswer(deviceName, points, CidBack(cid), time, |points|);
    assert points[..|points|] == points;
  }

  predicate SameItem(a: string, b: string) {
    ValueText(a) == ValueText(b) && ItemName(a) == ItemName(b) && Description(a) == Description(b)
  }

  lemma MimicHolds(s: string, key: string, c: char)
    requires c in key && Mimics(s, key)
    ensures c in s
  {
    var k :| 0 <= k < |key| && key[k] == c;
    var suffix := "\"" + key;
    assert suffix[k + 1] == c;
    if EndsWith(s, suffix) { assert s[|s| - |suffix| + (k + 1)] == c; }
  }

  // ----- the cids that the collector makes -----

  function Stamp(nowMs: int): string {
    "-" + Decimal(nowMs)
  }

  /** The path ends in the clock's stamp, and what stands before the stamp is taken for a key in the device's name. */
  predicate FoundIn(deviceName: string, nowMs: int, path: string) {
    EndsWith(path, Stamp(nowMs)) && Mimics(Letters(deviceName), path[..|path| - |Stamp(nowMs)|])
  }

  lemma StampPlain(nowMs: int)
    ensures '/' !in Stamp(nowMs) && '"' !in Stamp(nowMs) && OneLine(Stamp(nowMs))
    ensures Stamp(nowMs) != "" && IsDigit(Stamp(nowMs)[|Stamp(nowMs)| - 1])
    ensures forall i | 0 <= i < |Stamp(nowMs)| :: Stamp(nowMs)[i] == '-' || IsDigit(Stamp(nowMs)[i])
  {
    var digits := Digits(if nowMs < 0 then -nowMs else nowMs);
    assert digits[|digits| - 1] in digits;
    forall i | 0 <= i < |Stamp(nowMs)| ensures Stamp(nowMs)[i] == '-' || IsDigit(Stamp(nowMs)[i]) {
      assert Stamp(nowMs)[i] == '-' || Stamp(nowMs)[i] in digits;
    }
  }

  lemma CidLetters(deviceName: string, nowMs: int)
    ensures CidBack(MakeCid(deviceName, nowMs)) == Letters(deviceName) + Stamp(nowMs)
  {
    StampPlain(nowMs);
    LettersExactly(Stamp(nowMs));
    assert MakeCid(deviceName, nowMs) == deviceName + Stamp(nowMs);
    assert Letters(deviceName + Stamp(nowMs)) == Letters(deviceName) + Letters(Stamp(nowMs));
  }

  lemma EndsWithBoth(a: string, b: string, stamp: string)
    ensures EndsWith(a + stamp, b + stamp) <==> EndsWith(a, b)
  {
    var s, t := a + stamp, b + stamp;
    if |s| >= |t| {
      assert forall i | 0 <= i < |b| :: s[|s| - |t| + i] == a[|a| - |b| + i] && t[i] == b[i];
      assert forall i | |b| <= i < |t| :: s[|s| - |t| + i] == stamp[i - |b|] == t[i];
    }
  }

  lemma EndsWithCut(path: string, stamp: string)
    ensures EndsWith(path, stamp) <==> exists stem :: path == stem + stamp
    ensures EndsWith(path, stamp) ==> path == path[..|path| - |stamp|] + stamp
  {
    if EndsWith(path, stamp) {
      assert path == path[..|path| - |stamp|] + stamp;
    }
    if stem :| path == stem + stamp {
      assert forall i | 0 <= i < |stamp| :: path[|stem| + i] == stamp[i];
    }
  }

  /** A path that ends a stamped text holds a slash, so it holds the whole stamp. */
  lemma StampInside(name: string, stamp: string, path: string)
    requires '/' !in stamp && '/' in path && EndsWith(name + stamp, path)
    ensures EndsWith(path, stamp)
  {
    var s := name + stamp;
    var k :| 0 <= k < |path| && path[k] == '/';
    assert s[|s| - |path| + k] == '/';
    assert forall i | 0 <= i < |stamp| :: path[|path| - |stamp| + i] == s[|s| - |path| + (|path| - |stamp| + i)] == stamp[i];
  }

  lemma QuotedEnds(s: string, path: string)
    requires EndsWith(s, "\"" + path)
    ensures EndsWith(s, path)
  {
    var quoted := "\"" + path;
    forall i | 0 <= i < |path| ensures s[|s| - |path| + i] == path[i] {
      assert s[|s| - |quoted| + (i + 1)] == quoted[i + 1];
    }
  }

  lemma StampedMimics(name: string, stem: string, stamp: string)
    ensures Mimics(name + stamp, stem + stamp) <==> Mimics(name, stem)
  {
    EndsWithBoth(name, "\"" + stem, stamp);
    assert "\"" + (stem + stamp) == ("\"" + stem) + stamp;
    if name + stamp == stem + stamp {
      assert |name| == |stem| && name == (name + stamp)[..|name|];
    }
  }

  /** When exactly a path is found in the collector's own cid. */
  lemma CidMimics(deviceName: string, nowMs: int, path: string)
    requires '/' in path
    ensures Mimics(CidBack(MakeCid(deviceName, nowMs)), path) <==> FoundIn(deviceName, nowMs, path)
  {
    hide Letters, Stamp, CidBack, MakeCid;
    var name, stamp := Letters(deviceName), Stamp(nowMs);
    CidLetters(deviceName, nowMs);
    StampPlain(nowMs);
    EndsWithCut(path, stamp);
    if EndsWith(path, stamp) {
      StampedMimics(name, path[..|path| - |stamp|], stamp);
    } else if Mimics(name + stamp, path) {
      if EndsWith(name + stamp, "\"" + path) { QuotedEnds(name + stamp, path); }
      StampInside(name, stamp, path);
    }
  }

  // ----- the whole exchange -----

  function AnswerAt(deviceName: string, paths: seq<string>, nowMs: int, time: string): string {
    Answer(QueryFor(MakeCid(deviceName, nowMs), paths), time)
  }

  /** What point i is given in a cycle of this device that starts at this clock reading. */
  function GivenAt(deviceName: string, paths: seq<string>, nowMs: int, time: string, i: nat): Reading
    requires i < |paths|
  {
    Expected(deviceName, if FoundIn(deviceName, nowMs, paths[i]) then paths[0] else paths[i], time)
      .(namePath := paths[i])
  }

  predicate Readable(paths: seq<string>) {
    paths != [] && AllAddressable(paths) && Distinct(paths)
  }

  lemma HasSlash(path: string)
    requires Addressable(path)
    ensures '/' in path
  {
  }

  /**
    End to end, for every device name and every clock: each point is given exactly one reading, in order.
    It is the point's own, unless its path is found in the cid; then it is the first point's.
   */
  lemma ExchangeReadings(deviceName: string, points: seq<DataPoint>, nowMs: int, time: string)
    requires TimeText(time) && Readable(NamePaths(points))
    ensures var paths := NamePaths(points);
            var readings := Readings(deviceName, points, AnswerAt(deviceName, paths, nowMs, time));
            && |readings| == |points|
            && forall i | 0 <= i < |points| :: readings[i] == GivenAt(deviceName, paths, nowMs, time, i)
  {
    hide Addressable, Distinct, Mimics, TimeText, Expected, Answer, CidBack, QueryFor, Readings, FoundIn, MakeCid;
    var paths := NamePaths(points);
    AnyCidReadings(deviceName, points, MakeCid(deviceName, nowMs), time);
    forall i | 0 <= i < |points|
      ensures Given(deviceName, paths, CidBack(MakeCid(deviceName, nowMs)), time, i)
              == GivenAt(deviceName, paths, nowMs, time, i)
    {
      HasSlash(paths[i]);
      CidMimics(deviceName, nowMs, paths[i]);
    }
  }

  function AllExpected(deviceName: string, paths: seq<string>, time: string): seq<Reading> {
    seq(|paths|, i requires 0 <= i < |paths| => Expected(deviceName, paths[i], time))
  }

  lemma GivenExactly(deviceName: string, paths: seq<string>, nowMs: int, time: string, i: nat)
    requires i < |paths|
    ensures GivenAt(deviceName, paths, nowMs, time, i) == Expected(deviceName, paths[i], time)
            <==> (FoundIn(deviceName, nowMs, paths[i]) ==> SameItem(paths[0], paths[i]))
  {
    hide FoundIn, ItemName, Description, ValueText;
    var a, b := ValueText(paths[0]), ValueText(paths[i]);
    assert ("[" + a + "]")[1..|a| + 1] == a && ("[" + b + "]")[1..|b| + 1] == b;
    assert |"[" + a + "]"| == |a| + 2 && |"[" + b + "]"| == |b| + 2;
  }

  /**
    Every point is given its own reading if and only if each path that is found in the cid names the same
    item as the first path does.
   */
  lemma EveryPointRead(deviceName: string, points: seq<DataPoint>, nowMs: int, time: string)
    requires TimeText(time) && Readable(NamePaths(points))
    ensures var paths := NamePaths(points);
            Readings(deviceName, points, AnswerAt(deviceName, paths, nowMs, time)) == AllExpected(deviceName, paths, time)
            <==> forall i | 0 <= i < |paths| :: FoundIn(deviceName, nowMs, paths[i]) ==> SameItem(paths[0], paths[i])
  {
    hide Readable, TimeText, FoundIn, AnswerAt, Readings, Expected, SameItem;
    var paths := NamePaths(points);
    var readings := Readings(deviceName, points, AnswerAt(deviceName, paths, nowMs, time));
    var expected := AllExpected(deviceName, paths, time);
    ExchangeReadings(deviceName, points, nowMs, time);
    forall i: nat | i < |points|
      ensures readings[i] == expected[i] <==> (FoundIn(deviceName, nowMs, paths[i]) ==> SameItem(paths[0], paths[i]))
    {
      GivenExactly(deviceName, paths, nowMs, time, i);
    }
  }

  lemma TimeDigitsText(micros: nat)
    ensures TimeText(TimeDigits(micros))
  {
    hide Padded, Digits;
    DigitsShape(micros / 1000000);
    var time, seconds, places := TimeDigits(micros), Digits(micros / 1000000), Padded(micros % 1000000, 6);
    assert time[0] == seconds[0];
    forall i | 0 <= i < |time| ensures IsDigit(time[i]) || time[i] == '.' {
      assert i > |seconds| ==> time[i] == places[i - |seconds| - 1];
    }
  }

  /** The times in the record are the driver's clock reading, to the microsecond, and not the fallback. */
  lemma RecordTimes(deviceName: string, path: string, micros: nat, fallback: real)
    requires InRange(micros as real / 1000000.0)
    ensures TimeText(TimeDigits(micros))
    ensures var record := RecordOf(Expected(deviceName, path, TimeDigits(micros)), fallback);
            record.devTime == record.svrTime == micros as real / 1000000.0
  {
    hide InRange, ItemName, Description, ValueText, Stod;
    TimeRead(micros);
    TimeDigitsText(micros);
  }

  // ----- what can be checked before a start -----

  /** A path that could end in a clock's stamp. */
  predicate EndsInStamp(path: string) {
    var dash := FindLastChar(path, '-');
    0 <= dash < |path| - 1 && forall i | dash < i < |path| :: IsDigit(path[i])
  }

  lemma DashBefore(stem: string, digits: string)
    requires digits != "" && forall i | 0 <= i < |digits| :: IsDigit(digits[i])
    ensures EndsInStamp(stem + ("-" + digits))
  {
    hide FindLastChar;
    var path := stem + ("-" + digits);
    assert path[|stem|] == '-' && forall i | |stem| < i < |path| :: path[i] == digits[i - |stem| - 1];
  }

  lemma StampShows(path: string, nowMs: int)
    requires EndsWith(path, Stamp(nowMs))
    ensures EndsInStamp(path)
  {
    hide EndsWith, EndsInStamp;
    EndsWithCut(path, Stamp(nowMs));
    var stem, digits := path[..|path| - |Stamp(nowMs)|], Digits(if nowMs < 0 then -nowMs else nowMs);
    forall i | 0 <= i < |digits| ensures IsDigit(digits[i]) { assert digits[i] in digits; }
    if nowMs < 0 {
      assert stem + Stamp(nowMs) == (stem + "-") + ("-" + digits);
      DashBefore(stem + "-", digits);
    } else {
      DashBefore(stem, digits);
    }
  }

  /** Without such paths all points get their own readings, whatever the name and the clock. */
  lemma UnstampedExchange(deviceName: string, points: seq<DataPoint>, nowMs: int, time: string)
    requires TimeText(time) && Readable(NamePaths(points))
    requires forall i | 0 <= i < |points| :: !EndsInStamp(points[i].namePath)
    ensures Readings(deviceName, points, AnswerAt(deviceName, NamePaths(points), nowMs, time))
            == AllExpected(deviceName, NamePaths(points), time)
  {
    hide Readable, TimeText, AnswerAt, Readings, Expected, SameItem, EndsInStamp, Mimics, EndsWith, Stamp;
    forall i | 0 <= i < |points| ensures !FoundIn(deviceName, nowMs, NamePaths(points)[i]) {
      if FoundIn(deviceName, nowMs, NamePaths(points)[i]) { StampShows(NamePaths(points)[i], nowMs); }
    }
    EveryPointRead(deviceName, points, nowMs, time);
  }

  lemma SlashFreeName(deviceName: string, nowMs: int, path: string)
    requires '/' !in deviceName && '/' in path
    ensures !FoundIn(deviceName, nowMs, path)
  {
    hide Mimics;
    var name, stamp := Letters(deviceName), Stamp(nowMs);
    StampPlain(nowMs);
    EndsWithCut(path, stamp);
    forall i | 0 <= i < |name| ensures name[i] != '/' {
      assert name[i] == Letter(deviceName[i]) && deviceName[i] in deviceName;
    }
    if FoundIn(deviceName, nowMs, path) { MimicHolds(name, path[..|path| - |stamp|], '/'); }
  }

  /** Nor can a device whose name holds no slash be misled. */
  lemma SlashFreeExchange(deviceName: string, points: seq<DataPoint>, nowMs: int, time: string)
    requires TimeText(time) && Readable(NamePaths(points)) && '/' !in deviceName
    ensures Readings(deviceName, points, AnswerAt(deviceName, NamePaths(points), nowMs, time))
            == AllExpected(deviceName, NamePaths(points), time)
  {
    hide Distinct, TimeText, AnswerAt, Readings, Expected, SameItem, Addressable, FoundIn;
    forall i | 0 <= i < |points| ensures !FoundIn(deviceName, nowMs, NamePaths(points)[i]) {
      HasSlash(NamePaths(points)[i]);
      SlashFreeName(deviceName, nowMs, NamePaths(points)[i]);
    }
    EveryPointRead(deviceName, points, nowMs, time);
  }

  lemma StampedSegment(nowMs: int)
    ensures var item := "n" + Stamp(nowMs);
            Plain(item) && '/' !in item && ']' !in item && item[|item| - 1] !in SPACES
  {
    hide Stamp, Plain;
    var item := "n" + Stamp(nowMs);
    StampPlain(nowMs);
    forall i | 0 <= i < |item| ensures item[i] == 'n' || item[i] == '-' || IsDigit(item[i]) {
      assert i > 0 ==> item[i] == Stamp(nowMs)[i - 1];
    }
    BarePlain(item);
  }

  lemma StampedItem(nowMs: int)
    ensures Addressable("/c/n" + Stamp(nowMs)) && ItemName("/c/n" + Stamp(nowMs)) == "n" + Stamp(nowMs)
    ensures Addressable("/a/b") && ItemName("/a/b") == "b"
  {
    hide Addressable, ItemName, Stamp, Plain;
    StampedSegment(nowMs);
    BarePlain("c");
    BarePlain("a");
    BarePlain("b");
    TwoSegments("c", "n" + Stamp(nowMs));
    TwoSegments("a", "b");
    assert "/" + "c" + "/" + ("n" + Stamp(nowMs)) == "/c/n" + Stamp(nowMs);
    assert "/" + "a" + "/" + "b" == "/a/b";
  }

  lemma StampedName(nowMs: int)
    ensures FoundIn("x\"/c/n", nowMs, "/c/n" + Stamp(nowMs)) && "/a/b" != "/c/n" + Stamp(nowMs)
  {
    hide Stamp;
    var name, path, stamp := "x\"/c/n", "/c/n" + Stamp(nowMs), Stamp(nowMs);
    EndsWithCut(path, stamp);
    assert path[..|path| - |stamp|] == "/c/n";
    LettersExactly(name);
    assert Letters(name) == name;
    assert name == "x" + ("\"" + "/c/n");
    EndsWithMore("x", "\"" + "/c/n", "\"" + "/c/n");
    assert path[1] == 'c' && "/a/b"[1] == 'a';
  }

  /**
    A device named x"/c/n that has the points /a/b and /c/n-<now>: the query made at that millisecond holds
    the second path's key in its cid, and the second point is given the first one's reading.
   */
  lemma MisledDevice(points: seq<DataPoint>, nowMs: int, time: string)
    requires TimeText(time) && NamePaths(points) == ["/a/b", "/c/n" + Stamp(nowMs)]
    ensures var deviceName, paths := "x\"/c/n", NamePaths(points);
            var readings := Readings(deviceName, points, AnswerAt(deviceName, paths, nowMs, time));
            && |readings| == 2
            && readings[1] == Expected(deviceName, "/a/b", time).(namePath := paths[1])
            && readings[1].itemName == "b" && Expected(deviceName, paths[1], time).itemName == "n" + Stamp(nowMs) != "b"
  {
    hide Addressable, ItemName, TimeText, AnswerAt, Readings, Stamp, Description, ValueText;
    var paths := NamePaths(points);
    StampedItem(nowMs);
    StampPlain(nowMs);
    StampedName(nowMs);
    ExchangeReadings("x\"/c/n", points, nowMs, time);
  }

  lemma ConnectedKeyAt(cid: string, paths: seq<string>, time: string)
    ensures var i := FirstMimic(AnswerPieces(cid, paths, time), "machineConnected", 0); i == 1 || i == 2
  {
    hide FirstMimic, Mimics;
    var ps := AnswerPieces(cid, paths, time);
    WordMimicsKey("cid", "machineConnected");
    WordMimicsKey("machineConnected", "machineConnected");
    assert ps[0].str == "cid" && ps[2].str == "machineConnected";
    assert !Mimics(ps[0].str, "machineConnected") && Mimics(ps[2].str, "machineConnected");
  }

  lemma TruePiece(quoted: string, rest: string)
    ensures InQuotes(":true,", quoted) + rest == ":true" + (InQuotes(",", quoted) + rest)
  {
    assert ":true," == ":true" + ",";
    assert InQuotes(":true,", quoted) == ":true" + InQuotes(",", quoted);
  }

  lemma ConnectedKey()
    ensures InQuotes(",", Escaped("machineConnected")) == "," + Quoted("machineConnected")
    ensures ':' !in "," + Quoted("machineConnected")
  {
    hide Escaped, Plain, Quoted, InQuotes;
    WordPlain("machineConnected");
    EscapedPlain("machineConnected");
    WordQuoted("machineConnected");
  }

  lemma ConnectedAfter(cid: string, paths: seq<string>, time: string, i: nat)
    requires i == 1 || i == 2
    ensures var ps := AnswerPieces(cid, paths, time);
            TrueAfter(Text(ps, AnswerTail(paths)), End(ps, i))
  {
    hide TrueAfter, Text, TextTo, Escaped, InQuotes;
    var ps, tail := AnswerPieces(cid, paths, time), AnswerTail(paths);
    TextAfter(ps, tail, i);
    TrueAfterCut(TextTo(Rendered(ps), i + 1), Rest(Rendered(ps), i + 1, tail));
    var rest := InQuotes(",", Escaped("data")) + Rest(Rendered(ps), 4, tail);
    TruePiece(Escaped("data"), Rest(Rendered(ps), 4, tail));
    if i == 2 {
      TrueHere("", rest);
      assert "" + (":true" + rest) == ":true" + rest;
    } else {
      ConnectedKey();
      TrueHere("," + Quoted("machineConnected"), rest);
    }
  }

  lemma ConnectedKeyOk()
    ensures KeyOk("machineConnected")
  {
    hide Plain;
    AnswerWords();
  }

  /** The answer always says that the machine is connected, even when the cid ends in that very key. */
  lemma AnswerConnected(message: string, time: string)
    requires TimeText(time)
    ensures BoolField(Answer(message, time), "machineConnected")
  {
    hide TrueAfter, Text, TimeText, QueryPaths, EchoedCid, WellFormed, FirstMimic, AnswerPieces, KeyOk, BoolField;
    var paths, cid := QueryPaths(message), EchoedCid(message);
    ConnectedKeyOk();
    AnswerWellFormed(cid, paths, time);
    ConnectedKeyAt(cid, paths, time);
    var i := FirstMimic(AnswerPieces(cid, paths, time), "machineConnected", 0);
    ConnectedAfter(cid, paths, time, i);
    BoolDecoded(AnswerPieces(cid, paths, time), AnswerTail(paths), "machineConnected", i);
  }
}
