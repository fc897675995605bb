/** Query parameters, percent decoding and the two task routes. A char is a byte of the request target. */
module HttpText {
  import opened Models
  import opened Strings
  import opened JsonText
  import opened KeySearch
  import opened FieldText
  import opened CommandText

  // ----- percent decoding -----

  function HexValue(c: char): Option<nat> {
    if '0' <= c <= '9' then Some((c - '0') as nat)
    else if 'a' <= c <= 'f' then Some((c - 'a') as nat + 10)
    else if 'A' <= c <= 'F' then Some((c - 'A') as nat + 10)
    else None
  }

  /** std::stoi of two characters in base 16: blanks, then a sign, then digits as far as they go. */
  function HexPair(a: char, b: char): Option<int> {
    var high, low := HexValue(a), HexValue(b);
    if high.Some? then Some(if low.Some? then 16 * high.value + low.value else high.value)
    else if low.Some? && (a in SPACES || a == '+') then Some(low.value)
    else if low.Some? && a == '-' then Some(-(low.value as int))
    else None
  }

  function Byte(n: int): char {
    (n % 256) as char
  }

  function UrlDecoded(s: string): string {
    if s == "" then ""
    else if s[0] == '%' && |s| > 2 && HexPair(s[1], s[2]).Some? then [Byte(HexPair(s[1], s[2]).value)] + UrlDecoded(s[3..])
    else [if s[0] == '+' then ' ' else s[0]] + UrlDecoded(s[1..])
  }

  lemma UrlDecodedStep(s: string, i: nat, decoded: string)
    requires i < |s|
    ensures var escape := s[i] == '%' && i + 2 < |s| && HexPair(s[i + 1], s[i + 2]).Some?;
            && (escape ==> decoded + UrlDecoded(s[i..])
                           == decoded + [Byte(HexPair(s[i + 1], s[i + 2]).value)] + UrlDecoded(s[i + 3..]))
            && (!escape ==> decoded + UrlDecoded(s[i..])
                            == decoded + [if s[i] == '+' then ' ' else s[i]] + UrlDecoded(s[i + 1..]))
  {
    var rest := s[i..];
    assert rest[0] == s[i] && rest[1..] == s[i + 1..];
    if i + 2 < |s| { assert rest[1] == s[i + 1] && rest[2] == s[i + 2] && rest[3..] == s[i + 3..]; }
  }

  method UrlDecode(value: string) returns (decoded: string)
    ensures decoded == UrlDecoded(value)
  {
    decoded := "";
    var i := 0;
    while i < |value|
      invariant i <= |value| && decoded + UrlDecoded(value[i..]) == UrlDecoded(value)
      decreases |value| - i
    {
      UrlDecodedStep(value, i, decoded);
      if value[i] == '%' && i + 2 < |value| {
        var code := HexPair(value[i + 1], value[i + 2]);
        if code.Some? {
          decoded := decoded + [Byte(code.value)];
          i := i + 3;
          continue;
        }
      }
      decoded := decoded + [if value[i] == '+' then ' ' else value[i]];
      i := i + 1;
    }
    assert decoded + "" == decoded;
  }

  const LOWER_HEX := "0123456789abcdef"
  const UPPER_HEX := "0123456789ABCDEF"

  /** c is the hexadecimal digit of value n. */
  predicate HexDigit(c: char, n: nat) {
    n < 16 && (c == LOWER_HEX[n] || c == UPPER_HEX[n])
  }

  /**
    Section 2.1 of RFC 3986, with any choice of the bytes escaped beyond those that have to be; a blank may also be
    written as a plus sign.
   */
  predicate Encodes(text: string, name: string)
    decreases |text|
  {
    if text == "" then name == ""
    else if text[0] == '%' then
      && |text| > 2 && name != "" && name[0] as int < 256
      && HexDigit(text[1], name[0] as int / 16) && HexDigit(text[2], name[0] as int % 16)
      && Encodes(text[3..], name[1..])
    else
      && name != "" && text[0] != '&' && name[0] == (if text[0] == '+' then ' ' else text[0])
      && Encodes(text[1..], name[1..])
  }

  lemma HexDigitValue(c: char, n: nat)
    requires HexDigit(c, n)
    ensures HexValue(c) == Some(n)
  {
    assert n < 10 ==> LOWER_HEX[n] == UPPER_HEX[n] == '0' + n as char;
    assert n >= 10 ==> LOWER_HEX[n] == 'a' + (n - 10) as char && UPPER_HEX[n] == 'A' + (n - 10) as char;
  }

  lemma HexValueDigit(c: char)
    ensures HexValue(c).Some? ==> HexDigit(c, HexValue(c).value)
  {
    if HexValue(c).Some? {
      var n := HexValue(c).value;
      assert n < 10 ==> LOWER_HEX[n] == UPPER_HEX[n] == '0' + n as char;
      assert n >= 10 ==> LOWER_HEX[n] == 'a' + (n - 10) as char && UPPER_HEX[n] == 'A' + (n - 10) as char;
    }
  }

  predicate NoHexDigit(c: char) {
    c !in LOWER_HEX && c !in UPPER_HEX
  }

  lemma NotHex(c: char)
    requires NoHexDigit(c)
    ensures HexValue(c).None?
  {
    HexValueDigit(c);
  }

  /** A two-digit escape is its byte again. */
  lemma EscapeByte(high: char, low: char, c: char)
    requires c as int < 256 && HexDigit(high, c as int / 16) && HexDigit(low, c as int % 16)
    ensures HexPair(high, low).Some? && Byte(HexPair(high, low).value) == c
  {
    HexDigitValue(high, c as int / 16);
    HexDigitValue(low, c as int % 16);
  }

  /** What stoi makes of two characters that are not both digits. */
  lemma LoosePair(a: char, b: char, n: nat)
    ensures HexDigit(a, n) && NoHexDigit(b) ==> HexPair(a, b) == Some(n)
    ensures (a in SPACES || a == '+') && HexDigit(b, n) ==> HexPair(a, b) == Some(n)
    ensures a == '-' && HexDigit(b, n) ==> HexPair(a, b) == Some(0 - n)
  {
    hide HexDigit, NoHexDigit;
    if HexDigit(a, n) { HexDigitValue(a, n); }
    if HexDigit(b, n) { HexDigitValue(b, n); }
    if NoHexDigit(b) { NotHex(b); }
  }

  lemma EscapeRead(a: char, b: char, rest: string)
    ensures HexPair(a, b).Some? ==> UrlDecoded(['%', a, b] + rest) == [Byte(HexPair(a, b).value)] + UrlDecoded(rest)
  {
    hide HexPair, Byte;
    var text := ['%', a, b] + rest;
    assert text[0] == '%' && text[1] == a && text[2] == b && text[3..] == rest;
  }

  /** So an escape is also read with one digit before another character, or with a blank or sign before one digit. */
  lemma LooseEscapes(a: char, b: char, n: nat, rest: string)
    requires n < 16
    ensures HexDigit(a, n) && NoHexDigit(b) ==> UrlDecoded(['%', a, b] + rest) == [n as char] + UrlDecoded(rest)
    ensures (a in SPACES || a == '+') && HexDigit(b, n) ==>
              UrlDecoded(['%', a, b] + rest) == [n as char] + UrlDecoded(rest)
    ensures a == '-' && HexDigit(b, n) ==>
              UrlDecoded(['%', a, b] + rest) == [((256 - n) % 256) as char] + UrlDecoded(rest)
  {
    hide HexPair, HexDigit, NoHexDigit, UrlDecoded;
    LoosePair(a, b, n);
    EscapeRead(a, b, rest);
    assert (0 - n) % 256 == (256 - n) % 256;
  }

  /** A percent sign that no number follows stays, as it does at the end of the text. */
  lemma BareSign(a: char, b: char, rest: string)
    requires NoHexDigit(a) && (NoHexDigit(b) || (a !in SPACES && a != '+' && a != '-'))
    ensures UrlDecoded("%" + ([a, b] + rest)) == "%" + UrlDecoded([a, b] + rest)
    ensures UrlDecoded("%" + [a]) == "%" + UrlDecoded([a]) && UrlDecoded("%") == "%"
  {
    var text := "%" + ([a, b] + rest);
    assert text[1] == a && text[2] == b && text[1..] == [a, b] + rest;
    assert ("%" + [a])[1..] == [a];
    NotHex(a);
    if NoHexDigit(b) { NotHex(b); }
  }

  lemma EncodedStep(text: string, name: string)
    requires Encodes(text, name) && text != ""
    ensures var step := if text[0] == '%' then 3 else 1;
            && step <= |text| && name != "" && Encodes(text[step..], name[1..])
            && UrlDecoded(text) == [name[0]] + UrlDecoded(text[step..])
  {
    hide HexPair, HexDigit, Byte;
    if text[0] == '%' { EscapeByte(text[1], text[2], name[0]); }
  }

  lemma {:induction false} EncodedDecodes(text: string, name: string)
    requires Encodes(text, name)
    ensures UrlDecoded(text) == name
    decreases |text|
  {
    if text == "" {
    } else {
      hide UrlDecoded, Encodes;
      var step := if text[0] == '%' then 3 else 1;
      EncodedStep(text, name);
      EncodedDecodes(text[step..], name[1..]);
      assert name == [name[0]] + name[1..];
    }
  }

  lemma {:induction false} EncodedOneParameter(text: string, name: string)
    requires Encodes(text, name)
    ensures '&' !in text
    decreases |text|
  {
    if text == "" {
    } else {
      var step := if text[0] == '%' then 3 else 1;
      EncodedOneParameter(text[step..], name[1..]);
      assert text == text[..step] + text[step..];
    }
  }

  // ----- query parameters -----

  predicate StartsWith(s: string, prefix: string) {
    |prefix| <= |s| && s[..|prefix|] == prefix
  }

  function PathOnly(target: string): string {
    var mark := FindChar(target, '?', 0);
    if mark == NPOS then target else target[..mark]
  }

  /** The parameter that starts at pos. */
  function PartAt(target: string, pos: nat): string
    requires pos <= |target|
  {
    var next := FindChar(target, '&', pos);
    target[pos..if next == NPOS then |target| else next]
  }

  /** The decoded value of the first parameter from pos on that starts with the key. */
  function ParamFrom(target: string, pos: nat, key: string): string
    decreases |target| - pos
  {
    if pos >= |target| then ""
    else
      var next := FindChar(target, '&', pos);
      var part := PartAt(target, pos);
      if StartsWith(part, key) then UrlDecoded(part[|key|..])
      else if next == NPOS then ""
      else ParamFrom(target, next + 1, key)
  }

  function ParamValue(target: string, name: string): string {
    var mark := FindChar(target, '?', 0);
    if mark == NPOS then "" else ParamFrom(target, mark + 1, name + "=")
  }

  lemma ParamFromStep(target: string, pos: nat, key: string)
    ensures pos >= |target| ==> ParamFrom(target, pos, key) == ""
    ensures pos < |target| ==>
              var next, part := FindChar(target, '&', pos), PartAt(target, pos);
              ParamFrom(target, pos, key)
              == if StartsWith(part, key) then UrlDecoded(part[|key|..])
                 else if next == NPOS then "" else ParamFrom(target, next + 1, key)
  {
    hide UrlDecoded, FindChar, PartAt, StartsWith;
  }

  method QueryParam(target: string, name: string) returns (value: string)
    ensures value == ParamValue(target, name)
  {
    var queryPos := FindChar(target, '?', 0);
    if queryPos == NPOS {
      return "";
    }
    hide UrlDecoded, FindChar, PartAt, ParamFrom;
    var key := name + "=";
    var pos := queryPos + 1;
    while pos < |target|
      invariant pos >= 0 && ParamFrom(target, pos, key) == ParamFrom(target, queryPos + 1, key)
      decreases |target| - pos
    {
      ParamFromStep(target, pos, key);
      var next := FindChar(target, '&', pos);
      var part := PartAt(target, pos);
      if StartsWith(part, key) {
        value := UrlDecode(part[|key|..]);
        return;
      }
      if next == NPOS {
        break;
      }
      pos := next + 1;
    }
    ParamFromStep(target, pos, key);
    value := "";
  }

  /** Parameters joined by &. */
  function Joined(params: seq<string>): string {
    if |params| == 0 then "" else if |params| == 1 then params[0] else params[0] + ("&" + Joined(params[1..]))
  }

  /** The first parameter that starts with the key, decoded. */
  function FirstParam(params: seq<string>, key: string): string {
    if params == [] then ""
    else if StartsWith(params[0], key) then UrlDecoded(params[0][|key|..])
    else FirstParam(params[1..], key)
  }

  lemma LastPart(before: string, part: string)
    requires '&' !in part
    ensures FindChar(before + part, '&', |before|) == NPOS && PartAt(before + part, |before|) == part
  {
    FindCharShift(before, part, '&', 0);
    assert FindChar(part, '&', 0) == NPOS;
    assert (before + part)[|before|..] == part;
  }

  lemma NextPart(before: string, part: string, rest: string)
    requires '&' !in part
    ensures var target := before + (part + ("&" + rest));
            FindChar(target, '&', |before|) == |before| + |part| && PartAt(target, |before|) == part
  {
    hide FindChar;
    FindCharShift(before, part + ("&" + rest), '&', 0);
    FindCharHere(part, '&', rest);
    SliceShift(before, part + ("&" + rest), |part|);
    assert (part + ("&" + rest))[..|part|] == part;
  }

  lemma LastParam(before: string, part: string, key: string)
    requires '&' !in part && key != ""
    ensures ParamFrom(before + part, |before|, key) == if StartsWith(part, key) then UrlDecoded(part[|key|..]) else ""
  {
    hide UrlDecoded, FindChar, PartAt;
    LastPart(before, part);
  }

  lemma Moved(before: string, part: string, rest: string)
    ensures before + (part + ("&" + rest)) == (before + part + "&") + rest
  {
  }

  lemma NextParam(before: string, part: string, rest: string, key: string)
    requires '&' !in part && key != ""
    ensures ParamFrom(before + (part + ("&" + rest)), |before|, key)
            == if StartsWith(part, key) then UrlDecoded(part[|key|..])
               else ParamFrom((before + part + "&") + rest, |before + part + "&"|, key)
  {
    hide UrlDecoded, FindChar, PartAt, StartsWith;
    NextPart(before, part, rest);
    Moved(before, part, rest);
  }

  /** The parameter loop, on any list of parameters that hold no & of their own. */
  lemma {:induction false} ParamsFound(before: string, params: seq<string>, key: string)
    requires key != "" && forall i | 0 <= i < |params| :: '&' !in params[i]
    ensures ParamFrom(before + Joined(params), |before|, key) == FirstParam(params, key)
    decreases |params|
  {
    hide UrlDecoded, FindChar, StartsWith;
    if |params| == 0 {
      assert before + "" == before;
    } else if |params| == 1 {
      LastParam(before, params[0], key);
      assert FirstParam(params[1..], key) == "";
    } else {
      NextParam(before, params[0], Joined(params[1..]), key);
      ParamsFound(before + params[0] + "&", params[1..], key);
    }
  }

  function Target(path: string, params: seq<string>): string {
    path + ("?" + Joined(params))
  }

  lemma {:induction false} NoParam(params: seq<string>, key: string)
    requires forall i | 0 <= i < |params| :: !StartsWith(params[i], key)
    ensures FirstParam(params, key) == ""
  {
    hide UrlDecoded, StartsWith;
    if params == [] {
    } else {
      NoParam(params[1..], key);
    }
  }

  lemma ParamOfTarget(path: string, params: seq<string>, name: string)
    requires '?' !in path && forall i | 0 <= i < |params| :: '&' !in params[i]
    ensures ParamValue(Target(path, params), name) == FirstParam(params, name + "=")
    ensures (forall i | 0 <= i < |params| :: !StartsWith(params[i], name + "=")) ==>
              ParamValue(Target(path, params), name) == ""
    ensures PathOnly(Target(path, params)) == path && PathOnly(path) == path && ParamValue(path, name) == ""
  {
    hide UrlDecoded, FindChar;
    FindCharHere(path, '?', Joined(params));
    assert Target(path, params) == (path + "?") + Joined(params);
    ParamsFound(path + "?", params, name + "=");
    if forall i | 0 <= i < |params| :: !StartsWith(params[i], name + "=") { NoParam(params, name + "="); }
  }

  lemma {:induction false} FirstParamSkips(before: seq<string>, part: string, after: seq<string>, key: string)
    requires StartsWith(part, key) && forall i | 0 <= i < |before| :: !StartsWith(before[i], key)
    ensures FirstParam(before + ([part] + after), key) == UrlDecoded(part[|key|..])
    decreases |before|
  {
    hide UrlDecoded, StartsWith;
    var all := before + ([part] + after);
    if before == [] {
      assert all == [part] + after;
    } else {
      assert all[1..] == before[1..] + ([part] + after);
      FirstParamSkips(before[1..], part, after, key);
    }
  }

  /** A percent-encoded value comes back from among any other parameters, however it was encoded. */
  lemma EncodedParam(path: string, before: seq<string>, text: string, value: string, after: seq<string>, name: string)
    requires '?' !in path && '&' !in name && Encodes(text, value)
    requires forall i | 0 <= i < |before| :: '&' !in before[i] && !StartsWith(before[i], name + "=")
    requires forall i | 0 <= i < |after| :: '&' !in after[i]
    ensures ParamValue(Target(path, before + ([name + "=" + text] + after)), name) == value
  {
    hide UrlDecoded, Encodes, Joined;
    var key := name + "=";
    var part := key + text;
    EncodedOneParameter(text, value);
    ParamOfTarget(path, before + ([part] + after), name);
    assert part[..|key|] == key && part[|key|..] == text;
    FirstParamSkips(before, part, after, key);
    EncodedDecodes(text, value);
  }

  // ----- the task routes -----

  predicate RequestIs(text: string, command: Command, mid: string) {
    Requested(text) == command && StringField(text, "mid") == mid
  }

  function StartRequest(deviceName: string): Command {
    if deviceName == "" then StartAll else StartDevice(Letters(deviceName))
  }

  function StopRequest(deviceName: string): Command {
    if deviceName == "" then StopAll else StopDevice(Letters(deviceName))
  }

  lemma PlainText(s: string)
    requires forall i | 0 <= i < |s| :: WordChar(s[i]) || s[i] == '-'
    ensures Letters(s) == s && (s != "mid" && s != "device_name" ==> Word(s))
  {
    forall i | 0 <= i < |s| ensures s[i] != '\n' && s[i] != '\r' && s[i] != '\t' && s[i] != '"' { }
    LettersExactly(s);
  }

  lemma StartEnvelope(deviceName: string)
    ensures var category := if deviceName == "" then "start_all" else "start_device_collect";
            RequestIs(Text(EnvelopePieces(category, deviceName, "http-start"), "}"), StartRequest(deviceName), "http-start")
  {
    hide StringField, Text, EnvelopePieces, Letters, Word;
    PlainText("http-start");
    if deviceName == "" {
      PlainText("start_all");
      EnvelopeDecoded("start_all", deviceName, "http-start");
    } else {
      PlainText("start_device_collect");
      EnvelopeDecoded("start_device_collect", deviceName, "http-start");
    }
  }

  lemma StopEnvelope(deviceName: string)
    ensures var category := if deviceName == "" then "stop_all" else "stop_device_collect";
            RequestIs(Text(EnvelopePieces(category, deviceName, "http-stop"), "}"), StopRequest(deviceName), "http-stop")
  {
    hide StringField, Text, EnvelopePieces, Letters, Word;
    PlainText("http-stop");
    if deviceName == "" {
      PlainText("stop_all");
      EnvelopeDecoded("stop_all", deviceName, "http-stop");
    } else {
      PlainText("stop_device_collect");
      EnvelopeDecoded("stop_device_collect", deviceName, "http-stop");
    }
  }

  /** The command text that a POST to one of the task routes hands to the command processor. */
  method TaskRoute(target: string) returns (text: Option<string>)
    ensures PathOnly(target) != "/tasks/start" && PathOnly(target) != "/tasks/stop" ==> text == None
    ensures PathOnly(target) == "/tasks/start" ==>
              && text.Some? && StringField(text.value, "mid") == "http-start"
              && var device := ParamValue(target, "device");
                 Requested(text.value) == if device == "" then StartAll else StartDevice(Letters(device))
    ensures PathOnly(target) == "/tasks/stop" ==>
              && text.Some? && StringField(text.value, "mid") == "http-stop"
              && var device := ParamValue(target, "device");
                 Requested(text.value) == if device == "" then StopAll else StopDevice(Letters(device))
  {
    hide StringField, ParamValue, Text, Requested, Letters;
    var path := PathOnly(target);
    if path == "/tasks/start" {
      var deviceName := QueryParam(target, "device");
      var category := if deviceName == "" then "start_all" else "start_device_collect";
      var envelope := CommandEnvelope(category, deviceName, "http-start");
      StartEnvelope(deviceName);
      text := Some(envelope);
    } else if path == "/tasks/stop" {
      var deviceName := QueryParam(target, "device");
      var category := if deviceName == "" then "stop_all" else "stop_device_collect";
      var envelope := CommandEnvelope(category, deviceName, "http-stop");
      StopEnvelope(deviceName);
      text := Some(envelope);
    } else {
      text := None;
    }
  }

  lemma TaskParam(path: string, before: seq<string>, text: string, name: string, after: seq<string>)
    requires '?' !in path && Encodes(text, name)
    requires forall i | 0 <= i < |before| :: '&' !in before[i] && !StartsWith(before[i], "device=")
    requires forall i | 0 <= i < |after| :: '&' !in after[i]
    ensures var target := Target(path, before + (["device=" + text] + after));
            ParamValue(target, "device") == name && PathOnly(target) == path
  {
    hide Encodes, ParamValue, PathOnly, Target;
    assert "device" + "=" == "device=";
    var params := before + (["device=" + text] + after);
    EncodedOneParameter(text, name);
    EncodedParam(path, before, text, name, after, "device");
    forall i | 0 <= i < |params| ensures '&' !in params[i] { }
    ParamOfTarget(path, params, "device");
  }

  /** From the request target to the command: the named device is started exactly when its name is on one line. */
  lemma StartNamedDevice(before: seq<string>, text: string, name: string, after: seq<string>)
    requires name != "" && Encodes(text, name)
    requires forall i | 0 <= i < |before| :: '&' !in before[i] && !StartsWith(before[i], "device=")
    requires forall i | 0 <= i < |after| :: '&' !in after[i]
    ensures var target := Target("/tasks/start", before + (["device=" + text] + after));
            && PathOnly(target) == "/tasks/start"
            && (StartRequest(ParamValue(target, "device")) == StartDevice(name) <==> OneLine(name))
  {
    hide Encodes, StartsWith, ParamValue, PathOnly, Letters, OneLine;
    var params := before + (["device=" + text] + after);
    TaskParam("/tasks/start", before, text, name, after);
    LettersExactly(name);
  }

  lemma StopNamedDevice(before: seq<string>, text: string, name: string, after: seq<string>)
    requires name != "" && Encodes(text, name)
    requires forall i | 0 <= i < |before| :: '&' !in before[i] && !StartsWith(before[i], "device=")
    requires forall i | 0 <= i < |after| :: '&' !in after[i]
    ensures var target := Target("/tasks/stop", before + (["device=" + text] + after));
            && PathOnly(target) == "/tasks/stop"
            && (StopRequest(ParamValue(target, "device")) == StopDevice(name) <==> OneLine(name))
  {
    hide Encodes, StartsWith, ParamValue, PathOnly, Letters, OneLine;
    TaskParam("/tasks/stop", before, text, name, after);
    LettersExactly(name);
  }
}
