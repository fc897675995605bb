/**
  Reading an answer of any shape. The driver sends one JSON object whose data member holds an object per path; the
  collector looks for six fields in it, and fills in what is missing from the point and from its own clock.
 */
module DriverAnswers {
  import opened Models
  import opened Strings
  import opened JsonText
  import opened KeySearch
  import opened FieldText
  import opened BraceScan
  import opened CommandText
  import opened NumberText
  import opened ResponseParser

  // ----- text in which a key does not occur -----

  predicate NoneMimics(ps: seq<Piece>, key: string) {
    forall k | 0 <= k < |ps| :: !Mimics(ps[k].str, key)
  }

  /** The text is these pieces and then some punctuation, and none of the strings can be taken for the key. */
  ghost predicate CleanAs(t: string, key: string, ps: seq<Piece>, left: string) {
    && t == Text(ps, left) && WellFormed(ps) && NoneMimics(ps, key)
    && '"' !in left && (left != "" ==> left[0] in STRUCTURAL)
  }

  ghost predicate Clean(t: string, key: string) {
    exists ps, left :: CleanAs(t, key, ps, left)
  }

  /** And a string may come next. */
  ghost predicate Ready(t: string, key: string) {
    exists ps, left :: CleanAs(t, key, ps, left) && left != ""
  }

  lemma {:induction false} TextToPrefix(a: seq<string>, b: seq<string>, n: nat)
    requires n <= |a|
    ensures TextTo(a + b, n) == TextTo(a, n)
  {
    if n == 0 {
    } else {
      TextToPrefix(a, b, n - 1);
    }
  }

  lemma QuotedMore(head: string, left: string, raw: string, text: string)
    ensures head + InQuotes(left + raw, text) == (head + left) + InQuotes(raw, text)
  {
  }

  lemma PieceAdded(ps: seq<Piece>, left: string, raw: string, s: string)
    ensures Text(ps + [Piece(left + raw, s)], "") == Text(ps, left) + InQuotes(raw, Escaped(s))
  {
    hide Escaped, InQuotes;
    var p := Piece(left + raw, s);
    assert Rendered(ps + [p]) == Rendered(ps) + [PieceText(p)];
    TextToPrefix(Rendered(ps), [PieceText(p)], |ps|);
    QuotedMore(TextTo(Rendered(ps), |ps|), left, raw, Escaped(s));
    var t := TextTo(Rendered(ps), |ps|) + PieceText(p);
    assert t + "" == t;
  }

  lemma CleanString(t: string, key: string, raw: string, s: string)
    requires (Clean(t, key) && RawOk(raw)) || (Ready(t, key) && '"' !in raw)
    requires !Mimics(s, key)
    ensures Clean(t + InQuotes(raw, Escaped(s)), key)
  {
    hide Escaped, Mimics, InQuotes, Text;
    var ps, left :| CleanAs(t, key, ps, left) && (RawOk(raw) || (left != "" && '"' !in raw));
    var p := Piece(left + raw, s);
    assert RawOk(p.raw);
    PieceAdded(ps, left, raw, s);
    assert CleanAs(t + InQuotes(raw, Escaped(s)), key, ps + [p], "");
  }

  lemma TextMore(ps: seq<Piece>, left: string, raw: string)
    ensures Text(ps, left + raw) == Text(ps, left) + raw
  {
  }

  lemma ReadyRaw(t: string, key: string, raw: string)
    requires Clean(t, key) && RawOk(raw)
    ensures Ready(t + raw, key)
  {
    hide Text, NoneMimics, WellFormed;
    var ps, left :| CleanAs(t, key, ps, left);
    TextMore(ps, left, raw);
    assert CleanAs(t + raw, key, ps, left + raw);
  }

  lemma ReadyMore(t: string, key: string, raw: string)
    requires Ready(t, key) && '"' !in raw
    ensures Ready(t + raw, key)
  {
    hide Text, NoneMimics, WellFormed;
    var ps, left :| CleanAs(t, key, ps, left) && left != "";
    TextMore(ps, left, raw);
    assert CleanAs(t + raw, key, ps, left + raw);
  }

  lemma ReadyClean(t: string, key: string)
    requires Ready(t, key)
    ensures Clean(t, key)
  {
    hide CleanAs;
  }

  lemma CleanNothing(key: string)
    ensures Clean("", key)
  {
    assert CleanAs("", key, [], "");
  }

  lemma NotFound(t: string, key: string)
    requires Clean(t, key) && KeyOk(key)
    ensures Find(t, Quoted(key), 0) == NPOS
  {
    hide Find, Text, Mimics, WellFormed, KeyOk;
    var ps, left :| CleanAs(t, key, ps, left);
    KeySearchExactly(ps, left, key);
  }

  lemma OccursInPrefix(a: string, b: string, pattern: string, at: nat)
    requires OccursAt(a + b, pattern, at) && at + |pattern| <= |a|
    ensures OccursAt(a, pattern, at)
  {
    assert (a + b)[at..at + |pattern|] == a[at..at + |pattern|];
  }

  lemma FindInPrefix(a: string, b: string, pattern: string)
    requires Find(a, pattern, 0) != NPOS
    ensures Find(a + b, pattern, 0) == Find(a, pattern, 0)
  {
    var at := Find(a, pattern, 0);
    forall i: nat | i < at ensures !OccursAt(a + b, pattern, i) {
      if OccursAt(a + b, pattern, i) { OccursInPrefix(a, b, pattern, i); }
    }
    assert OccursAt(a + b, pattern, at);
  }

  lemma LastFound(ps: seq<Piece>, key: string)
    requires WellFormed(ps) && ps != [] && KeyOk(key) && ps[|ps| - 1].str == key && NoneMimics(ps[..|ps| - 1], key)
    ensures Find(Text(ps, ""), Quoted(key), 0) + |Quoted(key)| == |Text(ps, "")| && |Text(ps, "")| >= |Quoted(key)|
  {
    hide Find, WellFormed, KeyOk, FirstMimic;
    var n := |ps| - 1;
    assert Mimics(ps[n].str, key);
    forall k | 0 <= k < n ensures !Mimics(ps[k].str, key) { assert ps[k] == ps[..n][k]; }
    SearchEnds(ps, "", key, n);
    assert Text(ps, "") == TextTo(Rendered(ps), n + 1);
  }

  lemma WellFormedMore(ps: seq<Piece>, p: Piece)
    requires WellFormed(ps) && RawOk(p.raw)
    ensures WellFormed(ps + [p])
  {
  }

  /** The key is found where it first stands. */
  lemma FoundAt(t: string, key: string, suffix: string)
    requires Ready(t, key) && KeyOk(key)
    ensures Find(t + (Quoted(key) + suffix), Quoted(key), 0) == |t|
  {
    hide Find, Text, Escaped, NoneMimics, WellFormed;
    var ps, left :| CleanAs(t, key, ps, left) && left != "";
    var qs := ps + [Piece(left + "", key)];
    assert qs[..|qs| - 1] == ps;
    PieceAdded(ps, left, "", key);
    EscapedPlain(key);
    assert InQuotes("", key) == Quoted(key);
    WellFormedMore(ps, Piece(left + "", key));
    LastFound(qs, key);
    FindInPrefix(t + Quoted(key), suffix, Quoted(key));
    assert (t + Quoted(key)) + suffix == t + (Quoted(key) + suffix);
  }

  // ----- printed values without the key -----

  /** None of the strings in the value can be taken for the key. */
  predicate Silent(j: Json, key: string) {
    match j
    case Str(text) => !Mimics(text, key)
    case Literal(_) => true
    case List(items) => forall i | 0 <= i < |items| :: Silent(items[i], key)
    case Object(fields) => forall i | 0 <= i < |fields| :: !Mimics(fields[i].key, key) && Silent(fields[i].value, key)
  }

  predicate SilentFields(fields: seq<Field>, key: string) {
    forall i | 0 <= i < |fields| :: !Mimics(fields[i].key, key) && Silent(fields[i].value, key)
  }

  predicate PrintableFields(fields: seq<Field>) {
    forall i | 0 <= i < |fields| :: Printable(fields[i].value)
  }

  /** The next value or field may follow the text: at once when there is no separator, else after it. */
  ghost predicate Opens(t: string, key: string, separator: string) {
    if separator == "" then Ready(t, key) else separator == "," && Clean(t, key)
  }

  lemma OpensClean(t: string, key: string, separator: string)
    requires Opens(t, key, separator)
    ensures Clean(t, key) && Ready(t + separator, key)
  {
    hide Clean, Ready;
    if separator == "" {
      assert t + "" == t;
      ReadyClean(t, key);
    } else {
      ReadyRaw(t, key, ",");
    }
  }

  lemma Bracketed(t: string, open: string, inside: string, close: string)
    ensures t + (open + (inside + close)) == ((t + open) + inside) + close
  {
  }

  lemma {:induction false} CleanValue(t: string, j: Json, key: string)
    requires Ready(t, key) && Printable(j) && Silent(j, key)
    ensures Clean(t + Printed(j), key)
    decreases j, 1
  {
    hide Clean, Ready, Escaped, InQuotes, Mimics;
    match j {
      case Str(text) => CleanString(t, key, "", text);
      case Literal(raw) =>
        ReadyMore(t, key, raw);
        ReadyClean(t + raw, key);
      case List(items) =>
        ReadyMore(t, key, "[");
        CleanItems(t + "[", items, "", key);
        ReadyRaw((t + "[") + PrintedItems(items, ""), key, "]");
        Bracketed(t, "[", PrintedItems(items, ""), "]");
        ReadyClean(t + Printed(j), key);
      case Object(fields) =>
        ReadyMore(t, key, "{");
        CleanFields(t + "{", fields, "", key);
        ReadyRaw((t + "{") + PrintedFields(fields, ""), key, "}");
        Bracketed(t, "{", PrintedFields(fields, ""), "}");
        ReadyClean(t + Printed(j), key);
    }
  }

  lemma Regrouped4(a: string, b: string, c: string, d: string)
    ensures a + (b + (c + d)) == ((a + b) + c) + d
  {
  }

  lemma {:induction false} CleanItems(t: string, items: seq<Json>, separator: string, key: string)
    requires Opens(t, key, separator)
    requires forall i | 0 <= i < |items| :: Printable(items[i]) && Silent(items[i], key)
    ensures Clean(t + PrintedItems(items, separator), key)
    decreases items, 0
  {
    hide Clean, Ready;
    OpensClean(t, key, separator);
    if items == [] {
      assert t + "" == t;
    } else {
      var u, more := t + separator, PrintedItems(items[1..], ",");
      CleanValue(u, items[0], key);
      CleanItems(u + Printed(items[0]), items[1..], ",", key);
      Regrouped4(t, separator, Printed(items[0]), more);
    }
  }

  /** A field's key, its colon and its value. */
  lemma {:induction false} CleanField(t: string, field: Field, separator: string, key: string)
    requires Opens(t, key, separator) && Printable(field.value) && Silent(field.value, key) && !Mimics(field.key, key)
    ensures Clean(((t + InQuotes(separator, Escaped(field.key))) + ":") + Printed(field.value), key)
    decreases field, 2
  {
    hide Clean, Ready, Escaped, InQuotes, Mimics;
    CleanString(t, key, separator, field.key);
    ReadyRaw(t + InQuotes(separator, Escaped(field.key)), key, ":");
    CleanValue((t + InQuotes(separator, Escaped(field.key))) + ":", field.value, key);
  }

  lemma Regrouped5(a: string, b: string, c: string, d: string, e: string)
    ensures a + (b + (c + (d + e))) == (((a + b) + c) + d) + e
  {
  }

  lemma {:induction false} CleanFields(t: string, fields: seq<Field>, separator: string, key: string)
    requires Opens(t, key, separator) && PrintableFields(fields) && SilentFields(fields, key)
    ensures Clean(t + PrintedFields(fields, separator), key)
    decreases fields, 0
  {
    hide Clean, Ready, Escaped, InQuotes, Mimics;
    OpensClean(t, key, separator);
    if fields == [] {
      assert t + "" == t;
    } else {
      var quoted, more := InQuotes(separator, Escaped(fields[0].key)), PrintedFields(fields[1..], ",");
      CleanField(t, fields[0], separator, key);
      CleanFields(((t + quoted) + ":") + Printed(fields[0].value), fields[1..], ",", key);
      Regrouped5(t, quoted, ":", Printed(fields[0].value), more);
    }
  }

  // ----- a member of an object -----

  /** The first field with the key. */
  function Member(fields: seq<Field>, key: string): Option<Json> {
    if fields == [] then None else if fields[0].key == key then Some(fields[0].value) else Member(fields[1..], key)
  }

  /** The key may stand as a field's key, but nothing else in the fields can be taken for it. */
  predicate OnlyAsKey(fields: seq<Field>, key: string) {
    forall i | 0 <= i < |fields| ::
      Silent(fields[i].value, key) && (Mimics(fields[i].key, key) ==> fields[i].key == key)
  }

  lemma MemberHere(t: string, separator: string, key: string, value: string, more: string)
    requires Plain(key)
    ensures t + (InQuotes(separator, Escaped(key)) + (":" + (value + more)))
            == (t + separator) + (Quoted(key) + (":" + (value + more)))
  {
    EscapedPlain(key);
    assert InQuotes(separator, key) == separator + Quoted(key);
  }

  lemma {:induction false} NoMemberSilent(fields: seq<Field>, key: string)
    requires OnlyAsKey(fields, key) && Member(fields, key).None?
    ensures SilentFields(fields, key)
  {
    hide Mimics, Silent;
    if fields == [] {
    } else {
      NoMemberSilent(fields[1..], key);
    }
  }

  lemma {:induction false} NoMember(t: string, fields: seq<Field>, separator: string, key: string)
    requires Opens(t, key, separator) && PrintableFields(fields) && OnlyAsKey(fields, key) && Member(fields, key).None?
    ensures Clean(t + PrintedFields(fields, separator), key)
  {
    hide Clean, Ready, Mimics, Silent;
    NoMemberSilent(fields, key);
    CleanFields(t, fields, separator, key);
  }

  lemma FieldsFirst(fields: seq<Field>)
    ensures PrintedFields(fields, ",") == "" || PrintedFields(fields, ",")[0] == ','
  {
  }

  /** The first field with the key, the text before it, and what follows its value. */
  lemma {:induction false} MemberFound(t: string, fields: seq<Field>, separator: string, key: string)
    returns (front: string, more: string)
    requires Opens(t, key, separator) && PrintableFields(fields) && OnlyAsKey(fields, key) && Plain(key)
    requires Member(fields, key).Some?
    ensures Ready(front, key) && (more == "" || more[0] == ',')
    ensures t + PrintedFields(fields, separator)
            == front + (Quoted(key) + (":" + (Printed(Member(fields, key).value) + more)))
    decreases |fields|
  {
    hide Clean, Ready, Escaped, InQuotes, Mimics, Silent, Plain, Quoted, Printed, Printable;
    OpensClean(t, key, separator);
    var quoted, value, rest := InQuotes(separator, Escaped(fields[0].key)), Printed(fields[0].value), fields[1..];
    if fields[0].key == key {
      front, more := t + separator, PrintedFields(rest, ",");
      MemberHere(t, separator, key, value, more);
      FieldsFirst(rest);
    } else {
      CleanField(t, fields[0], separator, key);
      front, more := MemberFound(((t + quoted) + ":") + value, rest, ",", key);
      Regrouped5(t, quoted, ":", value, PrintedFields(rest, ","));
    }
  }

  lemma Closed(front: string, quoted: string, value: string, rest: string)
    ensures (front + (quoted + (":" + (value + rest)))) + "}" == front + (quoted + (":" + (value + (rest + "}"))))
  {
  }

  lemma ObjectReady(key: string)
    ensures Ready("{", key) && Opens("{", key, "")
  {
    CleanNothing(key);
    ReadyRaw("", key, "{");
    assert "" + "{" == "{";
  }

  /** Inside braces. */
  lemma KeyInObject(fields: seq<Field>, key: string) returns (front: string, more: string)
    requires PrintableFields(fields) && OnlyAsKey(fields, key) && Plain(key) && Member(fields, key).Some?
    ensures Ready(front, key) && more != "" && (more[0] == ',' || more[0] == '}')
    ensures Printed(Object(fields)) == front + (Quoted(key) + (":" + (Printed(Member(fields, key).value) + more)))
  {
    hide Clean, Ready, Quoted, PrintedFields, Mimics, Silent, Plain;
    ObjectReady(key);
    var rest;
    front, rest := MemberFound("{", fields, "", key);
    more := rest + "}";
    var value := Printed(Member(fields, key).value);
    Assoc("{", PrintedFields(fields, ""), "}");
    Closed(front, Quoted(key), value, rest);
  }

  lemma KeyNotInObject(fields: seq<Field>, key: string)
    requires PrintableFields(fields) && OnlyAsKey(fields, key) && KeyOk(key) && Member(fields, key).None?
    ensures Find(Printed(Object(fields)), Quoted(key), 0) == NPOS
  {
    hide Clean, Ready, Quoted, PrintedFields, Mimics, Silent, KeyOk, Find;
    ObjectReady(key);
    NoMember("{", fields, "", key);
    ReadyRaw("{" + PrintedFields(fields, ""), key, "}");
    ReadyClean(("{" + PrintedFields(fields, "")) + "}", key);
    Assoc("{", PrintedFields(fields, ""), "}");
    NotFound(Printed(Object(fields)), key);
  }

  // ----- what the decoders make of a member -----

  predicate InNumbers(s: string) {
    forall i | 0 <= i < |s| :: s[i] in NUMBER
  }

  lemma InNumbersBoth(a: string, b: string)
    requires InNumbers(a) && InNumbers(b)
    ensures InNumbers(a + b)
  {
  }

  lemma NumberParts(digits: string, e: int, exponent: string)
    ensures AreDigits(digits) ==> InNumbers(digits)
    ensures InNumbers("-") && InNumbers(".") && InNumbers("")
    ensures Spells(exponent, e) ==> InNumbers(exponent)
  {
    DecimalNumeric(e);
  }

  /** Every decimal that stod reads is taken as a whole by the search for its end. */
  lemma DecimalIsNumber(negative: bool, whole: string, fraction: string, exponent: string, e: int)
    requires AreDigits(whole) && AreDigits(fraction) && whole != "" && Spells(exponent, e)
    ensures NumberIn(DecimalText(negative, whole, fraction, exponent), NUMBER, ",")
  {
    hide Spells, AreDigits, InNumbers;
    NumberParts(whole, e, exponent);
    NumberParts(fraction, e, exponent);
    var places := if fraction == "" then "" else "." + fraction;
    InNumbersBoth(".", fraction);
    InNumbersBoth(places, exponent);
    InNumbersBoth(whole, places + exponent);
    InNumbersBoth(if negative then "-" else "", whole + (places + exponent));
    DecimalOpens(negative, whole, places + exponent);
    NumberCloses(DecimalText(negative, whole, fraction, exponent));
  }

  lemma DecimalOpens(negative: bool, whole: string, rest: string)
    requires AreDigits(whole) && whole != ""
    ensures var text := (if negative then "-" else "") + (whole + rest); text != "" && text[0] in NUMERIC
  {
  }

  lemma NumberCloses(text: string)
    requires InNumbers(text) && text != "" && text[0] in NUMERIC
    ensures NumberIn(text, NUMBER, ",")
  {
  }

  /** The search every decoder starts with: it goes on after the key's closing quote. */
  lemma MemberSearch(fields: seq<Field>, key: string) returns (head: string, more: string)
    requires PrintableFields(fields) && OnlyAsKey(fields, key) && KeyOk(key) && Member(fields, key).Some?
    ensures more != "" && (more[0] == ',' || more[0] == '}')
    ensures Printed(Object(fields)) == head + (":" + (Printed(Member(fields, key).value) + more))
    ensures Find(Printed(Object(fields)), Quoted(key), 0) != NPOS
    ensures Find(Printed(Object(fields)), Quoted(key), 0) + |Quoted(key)| == |head|
  {
    hide Clean, Ready, Quoted, Printed, Mimics, Silent, Find;
    var front;
    front, more := KeyInObject(fields, key);
    head := front + Quoted(key);
    FoundAt(front, key, ":" + (Printed(Member(fields, key).value) + more));
    Assoc(front, Quoted(key), ":" + (Printed(Member(fields, key).value) + more));
  }

  lemma TextMemberRead(fields: seq<Field>, key: string, s: string)
    requires PrintableFields(fields) && OnlyAsKey(fields, key) && KeyOk(key) && Member(fields, key) == Some(Str(s))
    ensures StringField(Printed(Object(fields)), key) == Letters(s)
  {
    hide Quoted, Find, StringAfter, Letters, KeyOk, PrintedFields, Escaped, OnlyAsKey, PrintableFields;
    var head, more := MemberSearch(fields, key);
    var text := ":" + (InQuotes("", Escaped(s)) + more);
    StringAfterCut(head, text);
    assert text == ":" + ("\"" + (Escaped(s) + ("\"" + more)));
    StringAfterHere(":", s, more);
  }

  lemma TextMember(fields: seq<Field>, key: string)
    requires PrintableFields(fields) && OnlyAsKey(fields, key) && KeyOk(key)
    ensures Member(fields, key).None? ==> StringField(Printed(Object(fields)), key) == ""
    ensures forall s :: Member(fields, key) == Some(Str(s)) ==> StringField(Printed(Object(fields)), key) == Letters(s)
  {
    hide Quoted, Find, StringAfter, Letters, KeyOk, PrintedFields, Printed, OnlyAsKey, PrintableFields;
    if Member(fields, key).None? {
      KeyNotInObject(fields, key);
    } else if Member(fields, key).value.Str? {
      TextMemberRead(fields, key, Member(fields, key).value.text);
    }
  }

  lemma NumberMember(fields: seq<Field>, key: string)
    requires PrintableFields(fields) && OnlyAsKey(fields, key) && KeyOk(key)
    ensures Member(fields, key).None? ==> NumberField(Printed(Object(fields)), key, NUMBER) == None
    ensures forall number :: Member(fields, key) == Some(Literal(number)) && NumberIn(number, NUMBER, ",") ==>
              NumberField(Printed(Object(fields)), key, NUMBER) == Some(number)
  {
    hide Quoted, Find, NumberAfter, KeyOk, PrintedFields, OnlyAsKey, PrintableFields, FindIn, FindNotIn;
    if Member(fields, key).None? {
      KeyNotInObject(fields, key);
    } else if Member(fields, key).value.Literal? && NumberIn(Member(fields, key).value.raw, NUMBER, ",") {
      var number := Member(fields, key).value.raw;
      var head, more := MemberSearch(fields, key);
      NumberFirst(number, NUMBER, more);
      NumberAfterColon(head, number + more, NUMBER, |number|);
    }
  }

  /** Up to and including its first closing bracket. */
  function UpToBracket(text: string): string {
    text[..FindChar(text, ']', 0) + 1]
  }

  lemma FindFirstChar(a: string, b: string, c: char)
    requires FindChar(a, c, 0) != NPOS
    ensures FindChar(a + b, c, 0) == FindChar(a, c, 0)
  {
    var at := FindChar(a, c, 0);
    assert (a + b)[at] == c && forall i | 0 <= i < at :: (a + b)[i] == a[i];
  }

  lemma ArrayCut(inside: string, more: string)
    ensures ArrayAfter(":" + (("[" + (inside + "]")) + more), 0) == UpToBracket("[" + (inside + "]"))
  {
    hide FindChar;
    var list := "[" + (inside + "]");
    var text := ":" + (list + more);
    assert list[|inside| + 1] == ']';
    var end := FindChar(list, ']', 0);
    assert text == [':'] + (['['] + ((inside + "]") + more));
    FindCharHere(":", '[', (inside + "]") + more);
    FindCharShift(":", list + more, ']', 0);
    FindFirstChar(list, more, ']');
    assert text[1..1 + end + 1] == list[..end + 1];
  }

  lemma ArrayMember(fields: seq<Field>, key: string)
    requires PrintableFields(fields) && OnlyAsKey(fields, key) && KeyOk(key)
    ensures Member(fields, key).None? ==> ArrayField(Printed(Object(fields)), key) == ""
    ensures Member(fields, key).Some? && Member(fields, key).value.List? ==>
              ArrayField(Printed(Object(fields)), key) == UpToBracket(Printed(Member(fields, key).value)) != ""
  {
    hide Quoted, Mimics, Silent, Find, ArrayAfter, KeyOk, PrintedFields, PrintedItems, OnlyAsKey;
    if Member(fields, key).None? {
      KeyNotInObject(fields, key);
    } else if Member(fields, key).value.List? {
      var inside := PrintedItems(Member(fields, key).value.items, "");
      var head, more := MemberSearch(fields, key);
      ArrayAfterCut(head, ":" + (Printed(Member(fields, key).value) + more));
      ArrayCut(inside, more);
      assert ("[" + (inside + "]"))[|inside| + 1] == ']';
    }
  }

  lemma NoArray(fields: seq<Field>, key: string)
    requires '[' !in Printed(Object(fields))
    ensures ArrayField(Printed(Object(fields)), key) == ""
  {
    hide Find, Printed;
    var text := Printed(Object(fields));
    assert forall i | 0 <= i < |text| :: text[i] in text;
  }

  /** A word that is followed by a character of its own begins with the pattern if the whole text does. */
  lemma WordOccurs(word: string, more: string, pattern: string)
    requires more != "" && more[0] !in pattern
    ensures OccursAt(word + more, pattern, 0) <==> pattern <= word
  {
    var text := word + more;
    if OccursAt(text, pattern, 0) {
      var k := if |word| < |pattern| then |word| else 0;
      assert text[|word|] == more[0];
      assert pattern != "" ==> text[0 + k] == pattern[k] && pattern[k] in pattern;
      assert forall i | 0 <= i < |pattern| :: text[0 + i] == pattern[i];
      assert |pattern| <= |word| ==> pattern == word[..|pattern|];
    }
    if pattern <= word {
      assert forall i | 0 <= i < |pattern| :: text[i] == pattern[i];
    }
  }

  lemma OccursShift(a: string, b: string, pattern: string)
    ensures OccursAt(a + b, pattern, |a|) <==> OccursAt(b, pattern, 0)
  {
    assert forall i | 0 <= i < |b| :: (a + b)[|a| + i] == b[i];
  }

  lemma WordAfterColon(blanks: string, word: string, more: string)
    requires AllIn(blanks, BLANKS) && word != "" && word[0] !in BLANKS
    requires more != "" && (more[0] == ',' || more[0] == '}')
    ensures TrueAfter(":" + ((blanks + word) + more), 0) <==> "true" <= word
  {
    hide FindChar, FindNotIn, OccursAt;
    var text, front := ":" + ((blanks + word) + more), ":" + blanks;
    assert text == [':'] + ((blanks + word) + more) && text == front + (word + more);
    FindCharHere("", ':', (blanks + word) + more);
    assert "" + text == text;
    assert text[|front|] == word[0] && forall i | 1 <= i < |front| :: text[i] == blanks[i - 1];
    assert FindNotIn(text, BLANKS, 1) == |front|;
    OccursShift(front, word + more, "true");
    WordOccurs(word, more, "true");
  }

  /** true after any blanks; false for a member that is missing or any other word. */
  lemma BoolMember(fields: seq<Field>, key: string, blanks: string, word: string)
    requires PrintableFields(fields) && OnlyAsKey(fields, key) && KeyOk(key) && AllIn(blanks, BLANKS)
    ensures Member(fields, key).None? ==> !BoolField(Printed(Object(fields)), key)
    ensures (Member(fields, key) == Some(Literal(blanks + word)) && word != "" && word[0] !in BLANKS) ==>
              (BoolField(Printed(Object(fields)), key) <==> "true" <= word)
  {
    hide Quoted, Mimics, Silent, Find, KeyOk, PrintedFields, OnlyAsKey, TrueAfter;
    if Member(fields, key).None? {
      KeyNotInObject(fields, key);
    } else if Member(fields, key) == Some(Literal(blanks + word)) && word != "" && word[0] !in BLANKS {
      var head, more := MemberSearch(fields, key);
      TrueAfterCut(head, ":" + ((blanks + word) + more));
      WordAfterColon(blanks, word, more);
    }
  }

  // ----- the object of a path -----

  /** What a driver sends: an object with a data member, in which each path has an object. */
  datatype DriverAnswer = DriverAnswer(before: seq<Field>, entries: seq<Field>, after: seq<Field>) {
    function Fields(): seq<Field> {
      before + ([Field("data", Object(entries))] + after)
    }

    predicate Printable() {
      PrintableFields(before) && PrintableFields(entries) && PrintableFields(after)
    }
  }

  /** The path stands in the answer as the key of its entry, if at all. */
  predicate Addresses(a: DriverAnswer, path: string) {
    && KeyOk(path) && OnlyAsKey(a.entries, path) && !Mimics("data", path)
    && SilentFields(a.before, path) && SilentFields(a.after, path)
  }

  function Separator(fields: seq<Field>): string {
    if fields == [] then "" else ","
  }

  lemma FourParts(a: string, b: string, c: string, d: string, e: string)
    ensures a + (b + (c + (d + e))) == (a + (b + (c + d))) + e
  {
  }

  lemma {:induction false} FieldsAppend(a: seq<Field>, b: seq<Field>, separator: string)
    ensures PrintedFields(a + b, separator)
            == PrintedFields(a, separator) + PrintedFields(b, if a == [] then separator else ",")
  {
    hide Escaped, InQuotes;
    if a == [] {
      assert a + b == b;
    } else {
      assert (a + b)[1..] == a[1..] + b;
      FieldsAppend(a[1..], b, ",");
      FourParts(InQuotes(separator, Escaped(a[0].key)), ":", Printed(a[0].value), PrintedFields(a[1..], ","),
                PrintedFields(b, ","));
    }
  }

  /** The text up to the first entry, and the text after the last. */
  function DataHead(a: DriverAnswer): string {
    ((("{" + PrintedFields(a.before, "")) + InQuotes(Separator(a.before), Escaped("data"))) + ":") + "{"
  }

  function DataTail(a: DriverAnswer): string {
    "}" + (PrintedFields(a.after, ",") + "}")
  }

  lemma AnswerParts(a: string, b: string, c: string, d: string, e: string)
    ensures "{" + ((a + (b + (":" + (("{" + (c + "}")) + d)))) + e)
            == (((("{" + a) + b) + ":") + "{") + (c + ("}" + (d + e)))
  {
  }

  lemma AnswerText(a: DriverAnswer)
    ensures Printed(Object(a.Fields())) == DataHead(a) + (PrintedFields(a.entries, "") + DataTail(a))
  {
    hide Escaped, InQuotes;
    var data := Field("data", Object(a.entries));
    FieldsAppend(a.before, [data] + a.after, "");
    assert ([data] + a.after)[1..] == a.after;
    AnswerParts(PrintedFields(a.before, ""), InQuotes(Separator(a.before), Escaped("data")),
                PrintedFields(a.entries, ""), PrintedFields(a.after, ","), "}");
  }

  lemma HeadReady(a: DriverAnswer, path: string)
    requires a.Printable() && Addresses(a, path)
    ensures Ready(DataHead(a), path)
  {
    hide Clean, Ready, Escaped, InQuotes, Mimics, Silent, KeyOk, Printable;
    ObjectReady(path);
    CleanFields("{", a.before, "", path);
    var t := "{" + PrintedFields(a.before, "");
    if a.before == [] { assert t == "{"; }
    CleanString(t, path, Separator(a.before), "data");
    ReadyRaw(t + InQuotes(Separator(a.before), Escaped("data")), path, ":");
    ReadyMore((t + InQuotes(Separator(a.before), Escaped("data"))) + ":", path, "{");
  }

  lemma NoEntry(a: DriverAnswer, path: string)
    requires a.Printable() && Addresses(a, path) && Member(a.entries, path).None?
    ensures ObjectFor(Printed(Object(a.Fields())), path) == ""
  {
    hide Clean, Ready, Mimics, Silent, KeyOk, Printable, Printed, PrintedFields, DataHead, Find, OnlyAsKey, Member;
    var head, entries, after := DataHead(a), PrintedFields(a.entries, ""), PrintedFields(a.after, ",");
    HeadReady(a, path);
    NoMember(head, a.entries, "", path);
    ReadyRaw(head + entries, path, "}");
    ReadyClean((head + entries) + "}", path);
    CleanFields((head + entries) + "}", a.after, ",", path);
    ReadyRaw(((head + entries) + "}") + after, path, "}");
    ReadyClean((((head + entries) + "}") + after) + "}", path);
    AnswerText(a);
    Regrouped5(head, entries, "}", after, "}");
    NotFound(Printed(Object(a.Fields())), path);
  }

  lemma ObjectOpening(fields: seq<Field>, after: string)
    requires PrintableFields(fields)
    ensures Scan(Printed(Object(fields)) + after, 0, false, false) == |Printed(Object(fields))|
    ensures Printed(Object(fields)) != "" && Printed(Object(fields))[0] == '{'
  {
    hide Scan, PrintedFields, Printable;
    PassFields(fields, "", "}" + after, 1);
    PassBraces(PrintedFields(fields, ""), after, 0);
  }

  lemma ThreeParts(front: string, quoted: string, value: string, more: string, tail: string)
    ensures (front + (quoted + (":" + (value + more)))) + tail == front + (quoted + (":" + (value + (more + tail))))
    ensures front + (quoted + (":" + (value + (more + tail)))) == (front + quoted) + (":" + (value + (more + tail)))
  {
  }

  lemma EntryObject(a: DriverAnswer, path: string)
    requires a.Printable() && Addresses(a, path) && Member(a.entries, path).Some? && Member(a.entries, path).value.Object?
    requires PrintableFields(Member(a.entries, path).value.fields)
    ensures ObjectFor(Printed(Object(a.Fields())), path) == Printed(Member(a.entries, path).value)
  {
    hide Clean, Ready, Mimics, Silent, Printable, Printed, PrintedFields, DataHead, DataTail, Find, OnlyAsKey, Member;
    hide Quoted, Scan, ObjectAfter;
    var head, entries, tail := DataHead(a), PrintedFields(a.entries, ""), DataTail(a);
    var value := Printed(Member(a.entries, path).value);
    HeadReady(a, path);
    var front, more := MemberFound(head, a.entries, "", path);
    AnswerText(a);
    Assoc(head, entries, tail);
    ThreeParts(front, Quoted(path), value, more, tail);
    FoundAt(front, path, ":" + (value + (more + tail)));
    ObjectAfterCut(front + Quoted(path), ":" + (value + (more + tail)));
    ObjectOpening(Member(a.entries, path).value.fields, more + tail);
    ObjectHere(":", value, more + tail);
  }

  // ----- the record of a point -----

  predicate HasArray(fields: seq<Field>) {
    Member(fields, "value").Some? && Member(fields, "value").value.List?
  }

  predicate IsNumber(member: Option<Json>) {
    member.Some? ==> member.value.Literal? && NumberIn(member.value.raw, NUMBER, ",")
  }

  predicate IsText(member: Option<Json>) {
    member.Some? ==> member.value.Str?
  }

  /**
    Each of the six fields is missing or of its own kind, and nothing else in the object can be taken for one. A value
    of another kind may stand where no array follows it.
   */
  predicate Readable(fields: seq<Field>) {
    && PrintableFields(fields)
    && OnlyAsKey(fields, "value") && OnlyAsKey(fields, "dev_time") && OnlyAsKey(fields, "svr_time")
    && OnlyAsKey(fields, "item_path") && OnlyAsKey(fields, "item_name") && OnlyAsKey(fields, "item_description")
    && (HasArray(fields) || Member(fields, "value").None? || '[' !in Printed(Object(fields)))
    && IsNumber(Member(fields, "dev_time")) && IsNumber(Member(fields, "svr_time"))
    && IsText(Member(fields, "item_path")) && IsText(Member(fields, "item_name"))
    && IsText(Member(fields, "item_description"))
  }

  /** A text that is missing or empty is replaced by the point's own. */
  predicate ShowsText(shown: string, member: Option<Json>, own: string)
    requires IsText(member)
  {
    shown == if member.None? || member.value.text == "" then own else Letters(member.value.text)
  }

  /** A time that is missing, or that stod refuses, is replaced by the collector's clock. */
  predicate ShowsTime(shown: real, member: Option<Json>, clock: real)
    requires IsNumber(member)
  {
    shown == if member.None? || Stod(member.value.raw).None? then clock else Stod(member.value.raw).value
  }

  /** The record made of a point and the object found for it. */
  predicate RecordFits(r: ResourceRecord, deviceName: string, point: DataPoint, found: seq<Field>, clock: real)
  {
    && Readable(found)
    && r.deviceName == deviceName && r.dataItemNamePath == point.namePath
    && HasArray(found) && r.data == UpToBracket(Printed(Member(found, "value").value))
    && ShowsTime(r.devTime, Member(found, "dev_time"), clock)
    && ShowsTime(r.svrTime, Member(found, "svr_time"), clock)
    && ShowsText(r.dataItemPath, Member(found, "item_path"), point.itemPath)
    && ShowsText(r.dataItemName, Member(found, "item_name"), point.itemName)
    && ShowsText(r.dataItemDescription, Member(found, "item_description"), point.itemDescription)
  }

  lemma SixKeys()
    ensures KeyOk("value") && KeyOk("dev_time") && KeyOk("svr_time")
    ensures KeyOk("item_path") && KeyOk("item_name") && KeyOk("item_description")
  {
    BarePlain("value");
    BarePlain("dev_time");
    BarePlain("svr_time");
    BarePlain("item_path");
    BarePlain("item_name");
    BarePlain("item_description");
  }

  lemma TextShown(found: seq<Field>, key: string, own: string)
    requires PrintableFields(found) && OnlyAsKey(found, key) && KeyOk(key) && IsText(Member(found, key))
    ensures ShowsText(OrElse(StringField(Printed(Object(found)), key), own), Member(found, key), own)
  {
    hide StringField, OnlyAsKey, KeyOk, Printed;
    TextMember(found, key);
    if Member(found, key).Some? { assert Member(found, key) == Some(Str(Member(found, key).value.text)); }
  }

  lemma TimeShown(found: seq<Field>, key: string, clock: real)
    requires PrintableFields(found) && OnlyAsKey(found, key) && KeyOk(key) && IsNumber(Member(found, key))
    ensures ShowsTime(TimeOf(NumberField(Printed(Object(found)), key, NUMBER), clock), Member(found, key), clock)
  {
    hide NumberField, OnlyAsKey, KeyOk, Printed, Stod, NumberIn;
    NumberMember(found, key);
    if Member(found, key).Some? { assert Member(found, key) == Some(Literal(Member(found, key).value.raw)); }
  }

  lemma ObjectRecord(deviceName: string, point: DataPoint, found: seq<Field>, clock: real)
    requires Readable(found)
    ensures var reading := ReadingOf(deviceName, point, Printed(Object(found)));
            if !HasArray(found) then reading.data == ""
            else reading.data != "" && RecordFits(RecordOf(reading, clock), deviceName, point, found, clock)
  {
    hide StringField, NumberField, ArrayField, OnlyAsKey, KeyOk, Printed, ShowsText, ShowsTime, UpToBracket, TimeOf;
    hide OrElse, NumberIn, Member;
    SixKeys();
    if !HasArray(found) && Member(found, "value").Some? { NoArray(found, "value"); }
    ArrayMember(found, "value");
    TimeShown(found, "dev_time", clock);
    TimeShown(found, "svr_time", clock);
    TextShown(found, "item_path", point.itemPath);
    TextShown(found, "item_name", point.itemName);
    TextShown(found, "item_description", point.itemDescription);
  }

  // ----- the records of an answer -----

  /** The fields that the answer holds for a path. */
  function FieldsFor(a: DriverAnswer, path: string): seq<Field> {
    var entry := Member(a.entries, path);
    if entry.Some? && entry.value.Object? then entry.value.fields else []
  }

  predicate Answers(a: DriverAnswer, path: string) {
    && a.Printable() && Addresses(a, path) && Readable(FieldsFor(a, path))
    && (Member(a.entries, path).Some? ==> Member(a.entries, path).value.Object?)
  }

  /** The points for which the answer holds a value array. */
  function WithValue(a: DriverAnswer, points: seq<DataPoint>): seq<DataPoint> {
    if points == [] then []
    else
      var rest, last := WithValue(a, points[..|points| - 1]), points[|points| - 1];
      if HasArray(FieldsFor(a, last.namePath)) then rest + [last] else rest
  }

  lemma ReadablePrintable(found: seq<Field>)
    requires Readable(found)
    ensures PrintableFields(found)
  {
  }

  lemma PointRecord(deviceName: string, point: DataPoint, a: DriverAnswer, clock: real)
    requires Answers(a, point.namePath)
    ensures var found := ObjectFor(Printed(Object(a.Fields())), point.namePath);
            var reading := ReadingOf(deviceName, point, found);
            if !HasArray(FieldsFor(a, point.namePath)) then found == "" || reading.data == ""
            else found != "" && reading.data != ""
                 && RecordFits(RecordOf(reading, clock), deviceName, point, FieldsFor(a, point.namePath), clock)
  {
    hide Printed, Readable, Addresses, Printable, ReadingOf, RecordFits, ObjectFor, RecordOf;
    var path := point.namePath;
    if Member(a.entries, path).None? {
      NoEntry(a, path);
    } else {
      ReadablePrintable(FieldsFor(a, path));
      EntryObject(a, path);
      ObjectRecord(deviceName, point, FieldsFor(a, path), clock);
      ObjectOpening(FieldsFor(a, path), "");
    }
  }

  lemma {:induction false} RecordsOfAnswer(deviceName: string, points: seq<DataPoint>, a: DriverAnswer, clock: real)
    requires forall i | 0 <= i < |points| :: Answers(a, points[i].namePath)
    ensures var kept := WithValue(a, points);
            var readings := Readings(deviceName, points, Printed(Object(a.Fields())));
            && |readings| == |kept|
            && forall i | 0 <= i < |kept| ::
                 && Answers(a, kept[i].namePath)
                 && RecordFits(RecordOf(readings[i], clock), deviceName, kept[i], FieldsFor(a, kept[i].namePath), clock)
  {
    hide Printed, Answers, ReadingOf, RecordFits, ObjectFor, RecordOf, FieldsFor, Readable;
    if points == [] {
    } else {
      var n := |points| - 1;
      RecordsOfAnswer(deviceName, points[..n], a, clock);
      PointRecord(deviceName, points[n], a, clock);
    }
  }

  /**
    Whatever is missing from the answer: the records are those of the points that have a value in it, in order, each
    with the point's own texts and the collector's clock in exactly the places that are missing or empty.
   */
  lemma AnswerRecords(deviceName: string, points: seq<DataPoint>, a: DriverAnswer, clock: real)
    requires forall i | 0 <= i < |points| :: Answers(a, points[i].namePath)
    ensures var kept, records := WithValue(a, points), Processed(deviceName, points, Printed(Object(a.Fields())), clock);
            && (records.None? <==> kept == [])
            && (records.Some? ==>
                  && |records.value| == |kept|
                  && forall i | 0 <= i < |kept| ::
                       RecordFits(records.value[i], deviceName, kept[i], FieldsFor(a, kept[i].namePath), clock))
  {
    hide Printed, Answers, RecordFits, RecordOf, FieldsFor, Readings, WithValue;
    RecordsOfAnswer(deviceName, points, a, clock);
  }

  /** A point is kept exactly when its path has an entry with a value array. */
  lemma {:induction false} WithValueMembers(a: DriverAnswer, points: seq<DataPoint>)
    ensures forall p :: p in WithValue(a, points) <==>
              p in points && Member(a.entries, p.namePath).Some? && Member(a.entries, p.namePath).value.Object?
              && HasArray(Member(a.entries, p.namePath).value.fields)
  {
    if points == [] {
    } else {
      var n := |points| - 1;
      WithValueMembers(a, points[..n]);
      assert points == points[..n] + [points[n]];
    }
  }

  // ----- an answer without names and times -----

  const BARE := DriverAnswer([], [Field("/p", Object([Field("value", List([Literal("1")]))]))], [])

  lemma OneField(key: string, value: Json)
    requires Plain(key)
    ensures Printed(Object([Field(key, value)])) == "{" + (Quoted(key) + (":" + Printed(value))) + "}"
  {
    hide Escaped;
    EscapedPlain(key);
    assert [Field(key, value)][1..] == [];
    assert PrintedFields([], ",") == "";
  }

  lemma BareWords()
    ensures Plain("data") && Plain("/p") && Plain("value")
    ensures Quoted("data") == "\"data\"" && Quoted("/p") == "\"/p\"" && Quoted("value") == "\"value\""
  {
    BarePlain("data");
    BarePlain("/p");
    BarePlain("value");
  }

  lemma BareValue()
    ensures Printed(List([Literal("1")])) == "[1]"
  {
    assert PrintedItems([Literal("1")], "") == "" + ("1" + "") by { assert [Literal("1")][1..] == []; }
  }

  lemma BareConcat()
    ensures "{" + ("\"value\"" + (":" + "[1]")) + "}" == "{\"value\":[1]}"
    ensures "{" + ("\"/p\"" + (":" + "{\"value\":[1]}")) + "}" == "{\"/p\":{\"value\":[1]}}"
  {
  }

  lemma BareConcatAll()
    ensures "{" + ("\"data\"" + (":" + "{\"/p\":{\"value\":[1]}}")) + "}"
            == "{\"data\":{\"/p\":{\"value\":[1]}}}"
  {
  }

  lemma BareText()
    ensures Printed(Object(BARE.Fields())) == "{\"data\":{\"/p\":{\"value\":[1]}}}"
  {
    hide Plain, Printed, Quoted;
    BareWords();
    BareValue();
    OneField("value", List([Literal("1")]));
    OneField("/p", Object([Field("value", List([Literal("1")]))]));
    OneField("data", Object(BARE.entries));
    assert BARE.Fields() == [Field("data", Object(BARE.entries))];
    BareConcat();
    BareConcatAll();
  }

  lemma OneMember(field: Field, key: string)
    ensures Member([field], key) == if field.key == key then Some(field.value) else None
  {
    assert [field][1..] == [];
  }

  lemma BareMembers()
    ensures var value := Field("value", List([Literal("1")]));
            && Member([value], "value") == Some(value.value)
            && Member([value], "dev_time").None? && Member([value], "svr_time").None?
            && Member([value], "item_path").None? && Member([value], "item_name").None?
            && Member([value], "item_description").None?
  {
    hide Member;
    var value := Field("value", List([Literal("1")]));
    OneMember(value, "value");
    OneMember(value, "dev_time");
    OneMember(value, "svr_time");
    OneMember(value, "item_path");
    OneMember(value, "item_name");
    OneMember(value, "item_description");
  }

  lemma BareReadable()
    ensures Readable([Field("value", List([Literal("1")]))])
  {
    hide Mimics, Member;
    BareMembers();
    PlainMimic("value", "dev_time");
    PlainMimic("value", "svr_time");
    PlainMimic("value", "item_path");
    PlainMimic("value", "item_name");
    PlainMimic("value", "item_description");
  }

  lemma BareAnswers()
    ensures Answers(BARE, "/p") && FieldsFor(BARE, "/p") == [Field("value", List([Literal("1")]))]
  {
    hide Mimics, Readable;
    BareReadable();
    BareWords();
    PlainMimic("value", "/p");
    PlainMimic("data", "/p");
  }

  /** The record of a point then has the point's own texts, and the collector's clock twice. */
  lemma BareRecord(deviceName: string, point: DataPoint, clock: real)
    requires point.namePath == "/p"
    ensures Processed(deviceName, [point], "{\"data\":{\"/p\":{\"value\":[1]}}}", clock)
            == Some([ResourceRecord(deviceName, "/p", "[1]", clock, clock,
                                    point.itemPath, point.itemName, point.itemDescription)])
  {
    hide Printed, Answers, Processed, Readable, FindChar, FieldsFor, Member;
    BareText();
    BareValue();
    BareAnswers();
    AnswerRecords(deviceName, [point], BARE, clock);
    BareMembers();
    assert WithValue(BARE, [point]) == [point] by { assert [point][..0] == []; }
    FindCharHere("[1", ']', "");
    assert "[1" + ([']'] + "") == "[1]" && "[1]"[..3] == "[1]";
    var records := Processed(deviceName, [point], Printed(Object(BARE.Fields())), clock);
    assert records.value == [records.value[0]];
  }
}
