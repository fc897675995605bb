/** Command requests and replies as text: the reply serialiser, the HTTP command envelope, their decoder. */
module CommandText {
  import opened Models
  import opened JsonText
  import opened KeySearch
  import opened FieldText

  // ----- integers -----

  const DIGITS := "0123456789"

  predicate IsDigit(c: char) {
    '0' <= c <= '9'
  }

  predicate FitsInt(n: int) {
    -0x8000_0000 <= n < 0x8000_0000
  }

  function Digits(n: nat): (s: string)
    ensures s != "" && forall c | c in s :: IsDigit(c)
  {
    if n < 10 then [DIGITS[n]] else Digits(n / 10) + [DIGITS[n % 10]]
  }

  function Decimal(n: int): string {
    if n < 0 then "-" + Digits(-n) else Digits(n)
  }

  function DigitRun(s: string, value: nat): nat {
    if s == "" || !IsDigit(s[0]) then value
    else DigitRun(s[1..], 10 * value + (s[0] - '0') as nat)
  }

  /** std::stoi on text of digits and minus signs: the leading number, or an exception. */
  function Stoi(s: string): Option<int> {
    var negative := s != "" && s[0] == '-';
    var digits := if negative then s[1..] else s;
    if digits == "" || !IsDigit(digits[0]) then None
    else
      var magnitude := DigitRun(digits, 0);
      var n := if negative then 0 - magnitude else magnitude;
      if FitsInt(n) then Some(n) else None
  }

  lemma {:induction false} DigitRunSnoc(s: string, d: char, value: nat)
    requires IsDigit(d) && forall c | c in s :: IsDigit(c)
    ensures DigitRun(s + [d], value) == 10 * DigitRun(s, value) + (d - '0') as nat
    decreases |s|
  {
    if s == "" {
      assert s + [d] == [d] && [d][1..] == "";
    } else {
      assert s[0] in s && (s + [d])[1..] == s[1..] + [d];
      DigitRunSnoc(s[1..], d, 10 * value + (s[0] - '0') as nat);
    }
  }

  lemma {:induction false} DigitsRead(n: nat)
    ensures DigitRun(Digits(n), 0) == n
  {
    if n < 10 {
      assert [DIGITS[n]][1..] == "";
    } else {
      DigitsRead(n / 10);
      DigitRunSnoc(Digits(n / 10), DIGITS[n % 10], 0);
    }
  }

  lemma DecimalRead(n: int)
    requires FitsInt(n)
    ensures Stoi(Decimal(n)) == Some(n)
  {
    var digits := Digits(if n < 0 then -n else n);
    assert digits[0] in digits;
    DigitsRead(if n < 0 then -n else n);
    assert ("-" + digits)[1..] == digits;
  }

  lemma DecimalNumeric(n: int)
    ensures Decimal(n) != "" && forall i | 0 <= i < |Decimal(n)| :: Decimal(n)[i] in NUMERIC
  {
    var digits := Digits(if n < 0 then -n else n);
    forall i | 0 <= i < |digits| ensures digits[i] in NUMERIC { assert digits[i] in digits; }
  }

  /** The decoded integer, the fallback when there is no number, None when stoi throws. */
  function IntField(text: string, field: string, fallback: int): Option<int> {
    match NumberField(text, field, NUMERIC)
    case Some(number) => Stoi(number)
    case None => Some(fallback)
  }

  // ----- the reply -----

  /** {"code":code,"msg":"msg","mid":"mid"} */
  function ReplyPieces(r: CommandResult): seq<Piece> {
    [Piece("{", "code"),
     Piece(":" + Decimal(r.code) + ",", "msg"),
     Piece(":", r.msg),
     Piece(",", "mid"),
     Piece(":", r.mid)]
  }

  predicate WordChar(c: char) {
    'a' <= c <= 'z' || 'A' <= c <= 'Z' || c == '_'
  }

  lemma WordPlain(s: string)
    requires forall i | 0 <= i < |s| :: WordChar(s[i])
    ensures Plain(s)
  {
    BarePlain(s);
  }

  lemma WordQuoted(word: string)
    requires forall i | 0 <= i < |word| :: WordChar(word[i])
    ensures InQuotes(",", word) == "," + Quoted(word)
    ensures ':' !in "," + Quoted(word) && '[' !in "," + Quoted(word) + ":"
  {
    var quoted := "," + Quoted(word);
    assert forall i | 0 <= i < |quoted| :: quoted[i] == ',' || quoted[i] == '"' || WordChar(quoted[i]);
  }

  lemma PlainKeys()
    ensures Plain("code") && Plain("msg") && Plain("mid")
  {
    hide Plain;
    WordPlain("code");
    WordPlain("msg");
    WordPlain("mid");
  }

  lemma PlainWords()
    ensures Plain("type") && Plain("json") && Plain("uid") && Plain("http") && Plain("pid") && Plain("cmd")
    ensures Plain("category") && Plain("params") && Plain("device_name")
  {
    hide Plain;
    WordPlain("type");
    WordPlain("json");
    WordPlain("uid");
    WordPlain("http");
    WordPlain("pid");
    WordPlain("cmd");
    WordPlain("category");
    WordPlain("params");
    WordPlain("device_name");
  }

  method ToJson(result: CommandResult) returns (json: string)
    ensures json == Text(ReplyPieces(result), "}")
  {
    var msg := EscapeJson(result.msg);
    var mid := EscapeJson(result.mid);
    hide TextTo, Rendered, InQuotes, Plain, Escaped;
    PlainKeys();
    ghost var ps := ReplyPieces(result);
    json := InQuotes("{", "code");
    KeyStep(ps, 1);
    json := json + InQuotes(":" + Decimal(result.code) + ",", "msg");
    KeyStep(ps, 2);
    json := json + InQuotes(":", msg);
    TextStep(ps, 3);
    json := json + InQuotes(",", "mid");
    KeyStep(ps, 4);
    json := json + InQuotes(":", mid);
    TextStep(ps, 5);
    json := json + "}";
  }

  lemma ReplyWellFormed(r: CommandResult)
    ensures WellFormed(ReplyPieces(r)) && KeyOk("code") && KeyOk("msg") && KeyOk("mid")
  {
    PlainKeys();
    DecimalNumeric(r.code);
    forall i: nat | i < |Decimal(r.code)| ensures Decimal(r.code)[i] != '"' { }
  }

  lemma ReplyLeads(r: CommandResult)
    ensures Leads(ReplyPieces(r), "msg", 2) && Leads(ReplyPieces(r), "mid", 4)
  {
    var ps := ReplyPieces(r);
    PlainMimic("code", "msg");
    PlainMimic("code", "mid");
    PlainMimic("msg", "mid");
    LeadsBy(ps, "msg", 1, 2);
    LeadsBy(ps, "mid", 2, 4);
  }

  lemma ReplyCode(r: CommandResult, fallback: int)
    requires FitsInt(r.code)
    ensures IntField(Text(ReplyPieces(r), "}"), "code", fallback) == Some(r.code)
  {
    ReplyWellFormed(r);
    DecimalNumeric(r.code);
    Assoc(":", Decimal(r.code), ",");
    NumberDecoded(ReplyPieces(r), "}", "code", 0, NUMERIC, Decimal(r.code), ",");
    DecimalRead(r.code);
  }

  /** The code comes back whatever the message is; the message and the mid come back as their letters. */
  lemma ReplyDecoded(r: CommandResult, fallback: int)
    requires FitsInt(r.code)
    ensures var json := Text(ReplyPieces(r), "}");
            && IntField(json, "code", fallback) == Some(r.code)
            && StringField(json, "msg") == Letters(r.msg)
            && StringField(json, "mid") == Letters(r.mid)
  {
    ReplyWellFormed(r);
    ReplyCode(r, fallback);
    ReplyLeads(r);
    FieldDecoded(ReplyPieces(r), "}", "msg", 2);
    FieldDecoded(ReplyPieces(r), "}", "mid", 4);
  }

  /** The reply survives the decoder exactly when neither text holds a newline, a return or a tab. */
  lemma ReplyRoundTrip(r: CommandResult)
    requires FitsInt(r.code)
    ensures var json := Text(ReplyPieces(r), "}");
            (IntField(json, "code", 0) == Some(r.code)
             && StringField(json, "msg") == r.msg && StringField(json, "mid") == r.mid)
            <==> OneLine(r.msg) && OneLine(r.mid)
  {
    ReplyDecoded(r, 0);
    LettersExactly(r.msg);
    LettersExactly(r.mid);
  }

  // ----- the HTTP command envelope -----

  /** {"type":"json","uid":"http","pid":"http","cmd":{"category":"category","params":{...}},"mid":"mid"} */
  function EnvelopeHead(category: string): seq<Piece> {
    [Piece("{", "type"), Piece(":", "json"), Piece(",", "uid"), Piece(":", "http"), Piece(",", "pid"), Piece(":", "http"),
     Piece(",", "cmd"), Piece(":{", "category"), Piece(":", category), Piece(",", "params")]
  }

  function EnvelopeTail(deviceName: string, mid: string): seq<Piece> {
    if deviceName == "" then [Piece(":{}},", "mid"), Piece(":", mid)]
    else [Piece(":{", "device_name"), Piece(":", deviceName), Piece("}},", "mid"), Piece(":", mid)]
  }

  function EnvelopePieces(category: string, deviceName: string, mid: string): seq<Piece> {
    EnvelopeHead(category) + EnvelopeTail(deviceName, mid)
  }

  /** The fixed start of the envelope. */
  method EnvelopeStart(ghost ps: seq<Piece>) returns (text: string)
    requires |ps| >= 8 && ps[..8] == EnvelopeHead("")[..8]
    ensures text == TextTo(Rendered(ps), 8)
  {
    hide TextTo, Rendered, InQuotes, Plain, Escaped;
    PlainWords();
    assert forall k | 0 <= k < 8 :: ps[k] == ps[..8][k] == EnvelopeHead("")[k];
    text := InQuotes("{", "type");
    KeyStep(ps, 1);
    text := text + InQuotes(":", "json");
    KeyStep(ps, 2);
    text := text + InQuotes(",", "uid");
    KeyStep(ps, 3);
    text := text + InQuotes(":", "http");
    KeyStep(ps, 4);
    text := text + InQuotes(",", "pid");
    KeyStep(ps, 5);
    text := text + InQuotes(":", "http");
    KeyStep(ps, 6);
    text := text + InQuotes(",", "cmd");
    KeyStep(ps, 7);
    text := text + InQuotes(":{", "category");
    KeyStep(ps, 8);
  }

  method CommandEnvelope(category: string, deviceName: string, mid: string) returns (text: string)
    ensures text == Text(EnvelopePieces(category, deviceName, mid), "}")
  {
    hide TextTo, Rendered, InQuotes, Plain, Escaped;
    PlainKeys();
    PlainWords();
    ghost var ps := EnvelopePieces(category, deviceName, mid);
    text := EnvelopeStart(ps);
    var c := EscapeJson(category);
    text := text + InQuotes(":", c);
    TextStep(ps, 9);
    text := text + InQuotes(",", "params");
    KeyStep(ps, 10);
    if deviceName != "" {
      text := text + InQuotes(":{", "device_name");
      KeyStep(ps, 11);
      var name := EscapeJson(deviceName);
      text := text + InQuotes(":", name);
      TextStep(ps, 12);
      text := text + InQuotes("}},", "mid");
      KeyStep(ps, 13);
    } else {
      text := text + InQuotes(":{}},", "mid");
      KeyStep(ps, 11);
    }
    var m := EscapeJson(mid);
    text := text + InQuotes(":", m);
    TextStep(ps, |ps|);
    text := text + "}";
  }

  /** Fit to travel beside a device name: no quotes, and not taken for a key that is looked up. */
  predicate Word(s: string) {
    '"' !in s && s != "mid" && s != "device_name"
  }

  lemma WellFormedJoin(ps: seq<Piece>, qs: seq<Piece>)
    requires WellFormed(ps) && WellFormed(qs)
    ensures WellFormed(ps + qs)
  {
  }

  lemma EnvelopeWellFormed(category: string, deviceName: string, mid: string)
    ensures WellFormed(EnvelopePieces(category, deviceName, mid))
    ensures KeyOk("category") && KeyOk("device_name") && KeyOk("mid")
  {
    hide Plain;
    PlainKeys();
    PlainWords();
    WellFormedJoin(EnvelopeHead(category), EnvelopeTail(deviceName, mid));
  }

  lemma HeadStrings(category: string, k: nat, key: string)
    requires Word(category) && k < 10 && (key == "mid" || key == "device_name")
    ensures !Mimics(EnvelopeHead(category)[k].str, key)
  {
    PlainMimic(EnvelopeHead(category)[k].str, key);
  }

  lemma CategoryLeads(category: string, deviceName: string, mid: string)
    ensures Leads(EnvelopePieces(category, deviceName, mid), "category", 8)
  {
    hide Mimics;
    var ps := EnvelopePieces(category, deviceName, mid);
    forall k: nat | k < 7 ensures !Mimics(ps[k].str, "category") { PlainMimic(ps[k].str, "category"); }
    LeadsBy(ps, "category", 7, 8);
  }

  lemma NameLeads(category: string, deviceName: string, mid: string)
    requires deviceName != "" && Word(category)
    ensures Leads(EnvelopePieces(category, deviceName, mid), "device_name", 11)
  {
    hide Mimics;
    var ps := EnvelopePieces(category, deviceName, mid);
    forall k: nat | k < 10 ensures !Mimics(ps[k].str, "device_name") { HeadStrings(category, k, "device_name"); }
    LeadsBy(ps, "device_name", 10, 11);
  }

  /** The device name itself may be taken for "mid": the colon read next is still the right one. */
  lemma MidLeads(category: string, deviceName: string, mid: string)
    requires Word(category)
    ensures Leads(EnvelopePieces(category, deviceName, mid), "mid", if deviceName == "" then 11 else 13)
  {
    hide Mimics;
    var ps := EnvelopePieces(category, deviceName, mid);
    forall k: nat | k < 10 ensures !Mimics(ps[k].str, "mid") { HeadStrings(category, k, "mid"); }
    if deviceName == "" {
      LeadsBy(ps, "mid", 10, 11);
    } else {
      PlainMimic("device_name", "mid");
      LeadsBy(ps, "mid", 11, 13);
    }
  }

  lemma NoName(category: string, mid: string)
    requires Word(category) && Word(mid)
    ensures FirstMimic(EnvelopePieces(category, "", mid), "device_name", 0) == |EnvelopePieces(category, "", mid)|
  {
    hide Mimics;
    var ps := EnvelopePieces(category, "", mid);
    forall k: nat | k < |ps| ensures !Mimics(ps[k].str, "device_name") {
      if k < 10 { HeadStrings(category, k, "device_name"); } else { PlainMimic(ps[k].str, "device_name"); }
    }
  }

  lemma EnvelopeStrings(category: string, deviceName: string, mid: string)
    ensures var ps := EnvelopePieces(category, deviceName, mid);
            && |ps| == (if deviceName == "" then 12 else 14)
            && ps[8].str == category && ps[|ps| - 1].str == mid && (deviceName != "" ==> ps[11].str == deviceName)
  {
  }

  /** What the command decoder reads out of an envelope, for every device name. */
  lemma EnvelopeDecoded(category: string, deviceName: string, mid: string)
    requires Word(category) && Word(mid)
    ensures var text := Text(EnvelopePieces(category, deviceName, mid), "}");
            && StringField(text, "category") == Letters(category)
            && StringField(text, "device_name") == Letters(deviceName)
            && StringField(text, "mid") == Letters(mid)
  {
    hide Leads, WellFormed, KeyOk, FirstMimic, Text, FieldValue, EnvelopePieces;
    var ps := EnvelopePieces(category, deviceName, mid);
    EnvelopeStrings(category, deviceName, mid);
    EnvelopeWellFormed(category, deviceName, mid);
    CategoryLeads(category, deviceName, mid);
    FieldDecoded(ps, "}", "category", 8);
    MidLeads(category, deviceName, mid);
    FieldDecoded(ps, "}", "mid", if deviceName == "" then 11 else 13);
    if deviceName == "" {
      assert Letters("") == "";
      NoName(category, mid);
      FieldMissing(ps, "}", "device_name");
    } else {
      NameLeads(category, deviceName, mid);
      FieldDecoded(ps, "}", "device_name", 11);
    }
  }

  // ----- dispatch -----

  datatype Command =
    | CreateDevice | DeleteDevice(name: string) | UpdateDevice
    | StartDevice(name: string) | StopDevice(name: string) | StartAll | StopAll | GetStatus
    | Unknown(category: string)

  /** What a request text asks for. The upsert fields of create and update are read later. */
  function Requested(text: string): Command {
    var category := StringField(text, "category");
    if category == "create_device" then CreateDevice
    else if category == "delete_device" then DeleteDevice(StringField(text, "device_name"))
    else if category == "update_device" then UpdateDevice
    else if category == "start_device_collect" then StartDevice(StringField(text, "device_name"))
    else if category == "stop_device_collect" then StopDevice(StringField(text, "device_name"))
    else if category == "start_all" then StartAll
    else if category == "stop_all" then StopAll
    else if category == "get_status" then GetStatus
    else Unknown(category)
  }

  /** Every category asks for its own command, and all others for none. */
  lemma EnvelopeRequests(category: string, name: string, mid: string)
    requires Word(category) && OneLine(category) && Word(mid)
    ensures Requested(Text(EnvelopePieces(category, name, mid), "}"))
            == match category
               case "create_device" => CreateDevice
               case "delete_device" => DeleteDevice(Letters(name))
               case "update_device" => UpdateDevice
               case "start_device_collect" => StartDevice(Letters(name))
               case "stop_device_collect" => StopDevice(Letters(name))
               case "start_all" => StartAll
               case "stop_all" => StopAll
               case "get_status" => GetStatus
               case _ => Unknown(category)
  {
    hide Text, EnvelopePieces, StringField, OneLine, Letters;
    EnvelopeDecoded(category, name, mid);
    LettersExactly(category);
  }
}
