/** `Message`, its JSON mapper, and the WebSocket codec built on it. */
module Messages {
  import opened Prelude
  import opened Json
  import JsonExact
  import JsonGrammar
  import JsonRoundTrip
  import Utf8

  datatype Message = Message(message: Bytes)

  // "message" and "Echo: "
  const MESSAGE_KEY: Bytes := [109, 101, 115, 115, 97, 103, 101]
  const ECHO_PREFIX: Bytes := [69, 99, 104, 111, 58, 32]

  /** A value together with the error code the callee may have set. */
  datatype Coded<+T> = Coded(value: T, failed: bool)

  function MessageToJson(m: Message): Json {
    JObject(Put([], MESSAGE_KEY, JString(m.message)))
  }

  /** `None` stands for the exception of `at` or `get_to`. */
  function MessageFromJson(j: Json): Option<Message> {
    if !j.JObject? then None
    else
      match At(j.fields, MESSAGE_KEY)
      case Some(JString(s)) => Some(Message(s))
      case _ => None
  }

  function Serialize(m: Message): Coded<Bytes> {
    match Dump(MessageToJson(m))
    case None => Coded([], true)
    case Some(text) => Coded(text, false)
  }

  function Deserialize(data: Bytes): Coded<Message> {
    match ParseText(data)
    case None => Coded(Message([]), true)
    case Some(j) =>
      match MessageFromJson(j)
      case None => Coded(Message([]), true)
      case Some(m) => Coded(m, false)
  }

  /** `None` is a null result. */
  function ToMessage(m: Message): Option<Bytes> {
    var raw := Serialize(m);
    if raw.failed then None else Some(raw.value)
  }

  function FromMessage(raw: Bytes): Option<Message> {
    var m := Deserialize(raw);
    if m.failed then None else Some(m.value)
  }

  /** The WebSocket handler of `/hello_ws`. */
  function WsHelloJson(msg: Option<Message>): Option<Bytes> {
    match msg
    case None => None
    case Some(m) => ToMessage(Message(ECHO_PREFIX + m.message))
  }

  lemma OneField(key: Bytes, s: Bytes)
    requires Utf8.Valid(key)
    ensures var j := JObject(Put([], key, JString(s)));
            && j == JObject([Field(key, JString(s))])
            && At(j.fields, key) == Some(JString(s))
            && JsonRoundTrip.Exact(j)
            && (Utf8.Valid(s) ==> JsonRoundTrip.WellFormed(j))
  {
    assert JsonRoundTrip.Exact(JString(s));
    assert Utf8.Valid(s) ==> JsonRoundTrip.WellFormed(JString(s));
    JsonRoundTrip.OneFieldObject(key, JString(s));
  }

  lemma InvalidTextFails(key: Bytes, s: Bytes)
    requires !Utf8.Valid(s)
    ensures Dump(JObject([Field(key, JString(s))])) == None
  {
    JsonRoundTrip.DumpCharsIffValid(s);
    assert Dump(JString(s)) == None;
    assert DumpField(Field(key, JString(s))) == None;
  }

  lemma EncodeBy(m: Message, j: Json)
    requires MessageToJson(m) == j
    ensures ToMessage(m) == Dump(j)
  {
  }

  lemma DecodeBy(raw: Bytes, j: Json)
    requires ParseText(raw) == Some(j)
    ensures FromMessage(raw) == MessageFromJson(j)
  {
  }

  /** A message is encoded exactly when its text is valid UTF-8, and decoding gives it back. */
  lemma CodecRoundTrip(m: Message)
    ensures ToMessage(m).Some? <==> Utf8.Valid(m.message)
    ensures ToMessage(m).Some? ==> FromMessage(ToMessage(m).value) == Some(m)
  {
    var j := MessageToJson(m);
    EncodeBy(m, j);
    KeyIsValid();
    OneField(MESSAGE_KEY, m.message);
    if Utf8.Valid(m.message) {
      JsonRoundTrip.RoundTrip(j);
      DecodeBy(ToMessage(m).value, j);
    } else {
      InvalidTextFails(MESSAGE_KEY, m.message);
    }
  }

  lemma KeyIsValid()
    ensures Utf8.Valid(MESSAGE_KEY) && Utf8.Valid(ECHO_PREFIX)
  {
    Utf8.AsciiIsValid(MESSAGE_KEY);
    Utf8.AsciiIsValid(ECHO_PREFIX);
  }

  lemma {:induction false} AtKeepsValid(fields: seq<Field>, key: Bytes)
    requires forall i :: 0 <= i < |fields| ==> JsonRoundTrip.WellFormed(fields[i].val)
    ensures At(fields, key).Some? ==> JsonRoundTrip.WellFormed(At(fields, key).value)
  {
    if fields != [] && fields[0].key != key {
      AtKeepsValid(fields[1..], key);
    }
  }

  /** Whatever bytes a message was decoded from, its text is valid UTF-8. */
  lemma DecodedIsValid(raw: Bytes)
    ensures FromMessage(raw).Some? ==> Utf8.Valid(FromMessage(raw).value.message)
  {
    if FromMessage(raw).Some? {
      var body := if StartsWith(raw, BYTE_ORDER_MARK) then raw[|BYTE_ORDER_MARK|..] else raw;
      JsonRoundTrip.ParsedIsWellFormed(body);
      AtKeepsValid(ParseText(raw).value.fields, MESSAGE_KEY);
    }
  }

  /** Every frame that decodes is answered, and the answer decodes to the echo of its text. */
  lemma EchoAnswers(raw: Bytes)
    ensures WsHelloJson(FromMessage(raw)).Some? <==> FromMessage(raw).Some?
    ensures FromMessage(raw).Some? ==>
              FromMessage(WsHelloJson(FromMessage(raw)).value)
              == Some(Message(ECHO_PREFIX + FromMessage(raw).value.message))
  {
    if FromMessage(raw).Some? {
      var m := FromMessage(raw).value;
      DecodedIsValid(raw);
      KeyIsValid();
      Utf8.ValidConcat(ECHO_PREFIX, m.message);
      CodecRoundTrip(Message(ECHO_PREFIX + m.message));
    }
  }

  // ------------------------------------------------------------ frames, as bytes

  /** The value is an object whose last member named "message" is the string `m` holds. */
  ghost predicate Says(t: JsonGrammar.Syntax, m: Message)
    requires JsonGrammar.IsSyntax(t)
  {
    t.Obj?
    && exists i: nat :: JsonGrammar.IsLastMember(t.members, i, [109, 101, 115, 115, 97, 103, 101])
                        && JsonGrammar.ValueOf(t.members[i]) == JString(m.message)
  }

  lemma SaysMeans(t: JsonGrammar.Syntax, m: Message)
    requires JsonGrammar.IsSyntax(t)
    ensures MessageFromJson(JsonGrammar.Meaning(t)) == Some(m) <==> Says(t, m)
  {
    if t.Obj? {
      JsonGrammar.MemberLookup(t.members, MESSAGE_KEY, JString(m.message));
    }
  }

  /** Frames that decode, by the grammar alone: JSON documents of an object with a
      string under "message", wherever their white space, whatever the order and
      number of the members and however the characters are escaped. */
  lemma DecodesExactly(raw: Bytes, m: Message)
    ensures FromMessage(raw) == Some(m)
            <==> exists d: JsonGrammar.Document ::
                   JsonGrammar.IsDocument(d) && JsonGrammar.DocumentText(d) == raw && Says(d.root.val, m)
  {
    if FromMessage(raw) == Some(m) {
      var d := JsonExact.ParsedIsDocument(raw);
      SaysMeans(d.root.val, m);
    }
    if d: JsonGrammar.Document :| JsonGrammar.IsDocument(d) && JsonGrammar.DocumentText(d) == raw && Says(d.root.val, m) {
      JsonExact.DocumentParses(d);
      SaysMeans(d.root.val, m);
    }
  }

  lemma OneFieldDumps(f: Field)
    requires DumpField(f).Some?
    ensures Dump(JObject([f])) == Some([123] + DumpField(f).value + [125])
  {
    var fields := [f];
    assert fields[1..] == [];
    assert DumpFields(fields) == DumpField(f);
  }

  lemma KeyPrints()
    ensures JsonExact.IsPlainText(MESSAGE_KEY) && DumpChars(MESSAGE_KEY) == Some(MESSAGE_KEY)
  {
    KeyIsValid();
    JsonExact.PlainTextPrints(MESSAGE_KEY);
  }

  lemma TextFieldDumps(key: Bytes, text: Bytes)
    requires DumpChars(key) == Some(key) && DumpChars(text).Some?
    ensures DumpField(Field(key, JString(text))) == Some([34] + key + [34] + [58] + ([34] + DumpChars(text).value + [34]))
  {
    assert DumpString(key) == Some([34] + key + [34]);
    assert Dump(JString(text)) == Some([34] + DumpChars(text).value + [34]);
  }

  lemma Pack(key: Bytes, text: Bytes)
    ensures [123] + ([34] + key + [34] + [58] + ([34] + text + [34])) + [125] == ([123, 34] + key + [34, 58, 34]) + text + [34, 125]
  {
  }

  lemma Opening()
    ensures [123, 34] + MESSAGE_KEY + [34, 58, 34] == [123, 34, 109, 101, 115, 115, 97, 103, 101, 34, 58, 34]
  {
  }

  /** The bytes of an encoded message: `{"message":"`, the text, `"}`. */
  lemma MessageBytes(text: Bytes)
    requires Utf8.Valid(text)
    ensures DumpChars(text).Some?
    ensures ToMessage(Message(text))
         == Some([123, 34, 109, 101, 115, 115, 97, 103, 101, 34, 58, 34] + DumpChars(text).value + [34, 125])
  {
    JsonRoundTrip.DumpCharsIffValid(text);
    MessageTree(text);
    KeyPrints();
    var key := MESSAGE_KEY;
    TextFieldDumps(key, text);
    OneFieldDumps(Field(key, JString(text)));
    EncodeBy(Message(text), JObject([Field(key, JString(text))]));
    Pack(key, DumpChars(text).value);
    Opening();
  }

  lemma MessageTree(text: Bytes)
    ensures MessageToJson(Message(text)) == JObject([Field(MESSAGE_KEY, JString(text))])
  {
    KeyIsValid();
    OneField(MESSAGE_KEY, text);
  }

  lemma EchoIsPlain(text: Bytes)
    requires JsonExact.IsPlainText(text)
    ensures JsonExact.IsPlainText([69, 99, 104, 111, 58, 32] + text)
  {
    KeyIsValid();
    Utf8.ValidConcat(ECHO_PREFIX, text);
  }

  /** An echo, byte for byte: `{"message":"hi"}` is answered with `{"message":"Echo: hi"}`. */
  lemma EchoBytes(text: Bytes)
    requires JsonExact.IsPlainText(text)
    ensures WsHelloJson(FromMessage([123, 34, 109, 101, 115, 115, 97, 103, 101, 34, 58, 34] + text + [34, 125]))
         == Some([123, 34, 109, 101, 115, 115, 97, 103, 101, 34, 58, 34] + ([69, 99, 104, 111, 58, 32] + text) + [34, 125])
  {
    MessageBytes(text);
    JsonExact.PlainTextPrints(text);
    CodecRoundTrip(Message(text));
    EchoIsPlain(text);
    MessageBytes([69, 99, 104, 111, 58, 32] + text);
    JsonExact.PlainTextPrints([69, 99, 104, 111, 58, 32] + text);
  }

  predicate AreBlank(spaces: seq<Bytes>) {
    forall i, k :: 0 <= i < |spaces| && 0 <= k < |spaces[i]| ==> spaces[i][k] in [9, 10, 13, 32]
  }

  /** A frame with `spaces` between its tokens. */
  function Spaced(spaces: seq<Bytes>, text: Bytes): Bytes
    requires |spaces| == 6
  {
    var value := spaces[3] + (([34] + (text + [34])) + spaces[4]);
    var member := spaces[1] + ([34] + ([109, 101, 115, 115, 97, 103, 101] + ([34] + (spaces[2] + ([58] + value)))));
    spaces[0] + (([123] + (member + [125])) + spaces[5])
  }

  /** White space between the tokens of a frame makes no difference. */
  lemma SpacedFrame(spaces: seq<Bytes>, text: Bytes)
    requires |spaces| == 6 && AreBlank(spaces) && JsonExact.IsPlainText(text)
    ensures FromMessage(Spaced(spaces, text)) == Some(Message(text))
  {
    KeyPrints();
    var member := SpacedMember(spaces, MESSAGE_KEY, text);
    var doc := SpacedDocument(spaces, member);
    assert JsonGrammar.IsLastMember(doc.root.val.members, 0, MESSAGE_KEY);
    DecodesExactly(JsonGrammar.DocumentText(doc), Message(text));
  }

  lemma SpacedDocument(spaces: seq<Bytes>, member: JsonGrammar.Member) returns (doc: JsonGrammar.Document)
    requires |spaces| == 6 && AreBlank(spaces) && JsonGrammar.IsMember(member)
    ensures JsonGrammar.IsDocument(doc) && doc.root.val == JsonGrammar.Obj([member], [])
    ensures JsonGrammar.DocumentText(doc) == spaces[0] + (([123] + (JsonGrammar.MemberText(member) + [125])) + spaces[5])
  {
    SpacesAreBlank(spaces, 0);
    SpacesAreBlank(spaces, 5);
    var members := [member];
    var root := JsonGrammar.Obj(members, []);
    var item := JsonGrammar.Item(spaces[0], root, spaces[5]);
    doc := JsonGrammar.Document(false, item, []);
    assert JsonGrammar.MembersText(members) == JsonGrammar.MemberText(member);
    assert JsonGrammar.Text(root) == [123] + (JsonGrammar.MemberText(member) + [125]);
    assert [] + (JsonGrammar.ItemText(item) + []) == JsonGrammar.ItemText(item);
  }

  lemma SpacesAreBlank(spaces: seq<Bytes>, i: nat)
    requires AreBlank(spaces) && i < |spaces|
    ensures JsonGrammar.Blank(spaces[i])
  {
    forall k | 0 <= k < |spaces[i]| ensures JsonGrammar.IsBlank(spaces[i][k]) {
      assert spaces[i][k] in [9, 10, 13, 32];
    }
  }

  lemma SpacedItem(before: Bytes, text: Bytes, after: Bytes) returns (item: JsonGrammar.Item)
    requires JsonGrammar.Blank(before) && JsonGrammar.Blank(after) && JsonExact.IsPlainText(text)
    ensures JsonGrammar.IsItem(item) && JsonGrammar.ItemMeaning(item) == JString(text)
    ensures JsonGrammar.ItemText(item) == before + (([34] + (text + [34])) + after)
  {
    var pieces := JsonExact.PlainTextPieces(text);
    item := JsonGrammar.Item(before, JsonGrammar.Str(pieces), after);
  }

  lemma SpacedMember(spaces: seq<Bytes>, keyText: Bytes, text: Bytes) returns (member: JsonGrammar.Member)
    requires |spaces| == 6 && AreBlank(spaces) && JsonExact.IsPlainText(keyText) && JsonExact.IsPlainText(text)
    ensures JsonGrammar.IsMember(member)
    ensures JsonGrammar.KeyOf(member) == keyText && JsonGrammar.ValueOf(member) == JString(text)
    ensures var value := spaces[3] + (([34] + (text + [34])) + spaces[4]);
            JsonGrammar.MemberText(member) == spaces[1] + ([34] + (keyText + ([34] + (spaces[2] + ([58] + value)))))
  {
    var key := JsonExact.PlainTextPieces(keyText);
    SpacesAreBlank(spaces, 1);
    SpacesAreBlank(spaces, 2);
    SpacesAreBlank(spaces, 3);
    SpacesAreBlank(spaces, 4);
    var item := SpacedItem(spaces[3], text, spaces[4]);
    member := JsonGrammar.Member(spaces[1], key, spaces[2], item);
  }
}
