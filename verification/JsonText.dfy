/**
  The hand-written JSON text layer: the escaper, the decoders that search for a quoted key anywhere in
  the text, and the theorem that says where such a search ends.
 */
module JsonText {
  import opened Models
  import opened Strings

  // ----- escaping -----

  function EscapedChar(c: char): string {
    if c == '\\' then "\\\\"
    else if c == '"' then "\\\""
    else if c == '\n' then "\\n"
    else if c == '\r' then "\\r"
    else if c == '\t' then "\\t"
    else [c]
  }

  function Escaped(s: string): string {
    if s == "" then "" else EscapedChar(s[0]) + Escaped(s[1..])
  }

  lemma {:induction false} EscapedAppend(a: string, b: string)
    ensures Escaped(a + b) == Escaped(a) + Escaped(b)
  {
    if a == "" {
      assert a + b == b;
    } else {
      assert (a + b)[1..] == a[1..] + b;
      EscapedAppend(a[1..], b);
    }
  }

  lemma EscapedOne(c: char)
    ensures Escaped([c]) == EscapedChar(c)
  {
    assert [c][1..] == "";
  }

  lemma EscapedSnoc(s: string)
    requires s != ""
    ensures Escaped(s) == Escaped(s[..|s| - 1]) + EscapedChar(s[|s| - 1])
  {
    hide Escaped, EscapedChar;
    EscapedAppend(s[..|s| - 1], [s[|s| - 1]]);
    EscapedOne(s[|s| - 1]);
    assert s[..|s| - 1] + [s[|s| - 1]] == s;
  }

  lemma EscapedNext(s: string, i: nat)
    requires i < |s|
    ensures Escaped(s[..i + 1]) == Escaped(s[..i]) + EscapedChar(s[i])
  {
    EscapedSnoc(s[..i + 1]);
    assert s[..i + 1][..i] == s[..i];
  }

  method EscapeJson(value: string) returns (escaped: string)
    ensures escaped == Escaped(value)
  {
    escaped := "";
    var i := 0;
    while i < |value|
      invariant i <= |value| && escaped == Escaped(value[..i])
      decreases |value| - i
    {
      var ch := value[i];
      var piece := [ch];
      match ch {
        case '\\' => piece := "\\\\";
        case '"' => piece := "\\\"";
        case '\n' => piece := "\\n";
        case '\r' => piece := "\\r";
        case '\t' => piece := "\\t";
        case _ =>
      }
      EscapedNext(value, i);
      escaped := escaped + piece;
      i := i + 1;
    }
    assert value[..i] == value;
  }

  /** The decoders drop the backslash and nothing else, so these three come back as letters. */
  function Letter(c: char): char {
    if c == '\n' then 'n' else if c == '\r' then 'r' else if c == '\t' then 't' else c
  }

  function Letters(s: string): string {
    seq(|s|, i requires 0 <= i < |s| => Letter(s[i]))
  }

  predicate OneLine(s: string) {
    '\n' !in s && '\r' !in s && '\t' !in s
  }

  lemma LettersExactly(s: string)
    ensures Letters(s) == s <==> OneLine(s)
  {
    if Letters(s) == s {
      forall i | 0 <= i < |s| ensures s[i] != '\n' && s[i] != '\r' && s[i] != '\t' {
        assert Letters(s)[i] == Letter(s[i]);
      }
    } else {
      var i :| 0 <= i < |s| && Letters(s)[i] != s[i];
      assert s[i] in s;
    }
  }

  /** A string that the escaper copies unchanged. */
  predicate Plain(s: string) {
    forall c | c in s :: EscapedChar(c) == [c]
  }

  lemma BarePlain(s: string)
    requires forall i | 0 <= i < |s| :: s[i] != '\\' && s[i] != '"' && s[i] != '\n' && s[i] != '\r' && s[i] != '\t'
    ensures Plain(s)
  {
    forall c | c in s ensures EscapedChar(c) == [c] {
      var i :| 0 <= i < |s| && s[i] == c;
    }
  }

  lemma {:induction false} EscapedPlain(s: string)
    requires Plain(s)
    ensures Escaped(s) == s
  {
    if s == "" {
    } else {
      assert s[0] in s;
      EscapedPlain(s[1..]);
      assert s == [s[0]] + s[1..];
    }
  }

  /** Inside escaped text every quote has a backslash before it. */
  lemma {:induction false} EscapedQuote(s: string, j: nat)
    requires j < |Escaped(s)| && Escaped(s)[j] == '"'
    ensures j > 0 && Escaped(s)[j - 1] == '\\'
  {
    var head := EscapedChar(s[0]);
    if j >= |head| {
      EscapedQuote(s[1..], j - |head|);
    }
  }

  lemma {:induction false} EscapedWithout(s: string, c: char)
    requires c !in s && c != '\\' && c != '"' && c != 'n' && c != 'r' && c != 't'
    ensures c !in Escaped(s)
  {
    if s == "" {
    } else {
      assert s[0] in s && c !in EscapedChar(s[0]);
      EscapedWithout(s[1..], c);
    }
  }

  // ----- reading a string literal -----

  /** From inside a literal: the value up to the closing quote, or nothing if the text ends first. */
  function ReadString(text: string, value: string, escaped: bool): Option<string>
    decreases |text|
  {
    if text == "" then None
    else if escaped then ReadString(text[1..], value + [text[0]], false)
    else if text[0] == '\\' then ReadString(text[1..], value, true)
    else if text[0] == '"' then Some(value)
    else ReadString(text[1..], value + [text[0]], false)
  }

  lemma ReadEscapedChar(c: char, tail: string, value: string)
    ensures ReadString(EscapedChar(c) + tail, value, false) == ReadString(tail, value + [Letter(c)], false)
  {
    var text := EscapedChar(c) + tail;
    if |EscapedChar(c)| == 1 {
      assert text[1..] == tail;
    } else {
      assert text[0] == '\\' && text[1..][1..] == tail;
    }
  }

  lemma {:induction false} ReadEscaped(s: string, rest: string, value: string)
    ensures ReadString(Escaped(s) + ("\"" + rest), value, false) == Some(value + Letters(s))
    decreases |s|
  {
    var text := Escaped(s) + ("\"" + rest);
    if s == "" {
      assert text == "\"" + rest && value + Letters(s) == value;
    } else {
      var head, tail := EscapedChar(s[0]), Escaped(s[1..]) + ("\"" + rest);
      assert text == head + tail;
      ReadEscaped(s[1..], rest, value + [Letter(s[0])]);
      ReadEscapedChar(s[0], tail, value);
      assert value + [Letter(s[0])] + Letters(s[1..]) == value + Letters(s);
    }
  }

  // ----- finding a key -----

  function Quoted(key: string): string {
    "\"" + key + "\""
  }

  /** The string literal after the next colon; nothing when there is none or it is not closed. */
  function StringAfter(text: string, from: nat): Option<string> {
    var colon := FindChar(text, ':', from);
    var quote := if colon == NPOS then NPOS else FindChar(text, '"', colon);
    if quote == NPOS then None else ReadString(text[quote + 1..], "", false)
  }

  function FieldValue(text: string, field: string): Option<string> {
    var keyPos := Find(text, Quoted(field), 0);
    if keyPos == NPOS then None else StringAfter(text, keyPos + |Quoted(field)|)
  }

  /** The string field decoders: a field that is not there reads as the empty string. */
  function StringField(text: string, field: string): string {
    FieldValue(text, field).GetOr("")
  }

  method ReadLiteral(text: string, from: nat) returns (value: Option<string>)
    requires from <= |text|
    ensures value == ReadString(text[from..], "", false)
  {
    var collected, escaped := "", false;
    var pos := from;
    while pos < |text|
      invariant from <= pos <= |text|
      invariant ReadString(text[from..], "", false) == ReadString(text[pos..], collected, escaped)
      decreases |text| - pos
    {
      var ch := text[pos];
      assert text[pos..][1..] == text[pos + 1..];
      pos := pos + 1;
      if escaped {
        collected := collected + [ch];
        escaped := false;
      } else if ch == '\\' {
        escaped := true;
      } else if ch == '"' {
        return Some(collected);
      } else {
        collected := collected + [ch];
      }
    }
    value := None;
  }

  method ExtractStringField(text: string, fieldName: string) returns (value: string)
    ensures value == StringField(text, fieldName)
  {
    var key := "\"" + fieldName + "\"";
    var keyPos := Find(text, key, 0);
    if keyPos == NPOS {
      return "";
    }
    var colonPos := FindChar(text, ':', keyPos + |key|);
    var quotePos := if colonPos == NPOS then NPOS else FindChar(text, '"', colonPos);
    if colonPos == NPOS || quotePos == NPOS {
      return "";
    }
    var literal := ReadLiteral(text, quotePos + 1);
    value := if literal.Some? then literal.value else "";
  }
}
