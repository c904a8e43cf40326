/** Protocol messages and their JSON object trees (message.c).  The text form of JSON is not
    modelled: a `Json` value is the tree the JSON library parses or prints. */
module Messages {
  import opened Base

  datatype MessageType =
    | IDENTIFY | STATUS | USERS | TEXT | PUBLIC_TEXT | NEW_ROOM | INVITE | INVITATION | JOIN_ROOM
    | ROOM_USERS | ROOM_TEXT | LEAVE_ROOM | DISCONNECT | NEW_USER | NEW_STATUS | USER_LIST
    | TEXT_FROM | PUBLIC_TEXT_FROM | JOINED_ROOM | ROOM_USER_LIST | ROOM_TEXT_FROM | LEFT_ROOM
    | DISCONNECTED | RESPONSE | UNKNOWN

  datatype Json =
    | JNull
    | JBool(b: bool)
    | JNumber(n: real)
    | JString(s: string)
    | JArray(elems: seq<Json>)
    | JObject(fields: seq<Field>)

  datatype Field = Field(key: string, value: Json)

  /** `None` is a NULL pointer; `usernames` is a C array whose elements may be NULL. */
  datatype Message = Message(
    kind: MessageType,
    username: Option<string>,
    operation: Option<string>,
    result: Option<string>,
    extra: Option<string>,
    status: Option<string>,
    users: Option<Json>,
    text: Option<string>,
    roomname: Option<string>,
    usernames: Option<seq<Option<string>>>)

  /** A message straight after `message_init`. */
  const BLANK := Message(UNKNOWN, None, None, None, None, None, None, None, None, None)

  function ParseType(s: string): MessageType {
    if s == "IDENTIFY" then IDENTIFY
    else if s == "STATUS" then STATUS
    else if s == "USERS" then USERS
    else if s == "TEXT" then TEXT
    else if s == "PUBLIC_TEXT" then PUBLIC_TEXT
    else if s == "NEW_ROOM" then NEW_ROOM
    else if s == "INVITE" then INVITE
    else if s == "INVITATION" then INVITATION
    else if s == "JOIN_ROOM" then JOIN_ROOM
    else if s == "ROOM_USERS" then ROOM_USERS
    else if s == "ROOM_TEXT" then ROOM_TEXT
    else if s == "LEAVE_ROOM" then LEAVE_ROOM
    else if s == "DISCONNECT" then DISCONNECT
    else if s == "NEW_STATUS" then NEW_STATUS
    else if s == "USER_LIST" then USER_LIST
    else if s == "TEXT_FROM" then TEXT_FROM
    else if s == "PUBLIC_TEXT_FROM" then PUBLIC_TEXT_FROM
    else if s == "JOINED_ROOM" then JOINED_ROOM
    else if s == "ROOM_USER_LIST" then ROOM_USER_LIST
    else if s == "ROOM_TEXT_FROM" then ROOM_TEXT_FROM
    else if s == "LEFT_ROOM" then LEFT_ROOM
    else if s == "NEW_USER" then NEW_USER
    else if s == "DISCONNECTED" then DISCONNECTED
    else if s == "RESPONSE" then RESPONSE
    else UNKNOWN
  }

  function TypeName(t: MessageType): string {
    match t
    case IDENTIFY => "IDENTIFY"
    case STATUS => "STATUS"
    case USERS => "USERS"
    case TEXT => "TEXT"
    case PUBLIC_TEXT => "PUBLIC_TEXT"
    case NEW_ROOM => "NEW_ROOM"
    case INVITE => "INVITE"
    case INVITATION => "INVITATION"
    case JOIN_ROOM => "JOIN_ROOM"
    case ROOM_USERS => "ROOM_USERS"
    case ROOM_TEXT => "ROOM_TEXT"
    case LEAVE_ROOM => "LEAVE_ROOM"
    case DISCONNECT => "DISCONNECT"
    case NEW_USER => "NEW_USER"
    case NEW_STATUS => "NEW_STATUS"
    case USER_LIST => "USER_LIST"
    case TEXT_FROM => "TEXT_FROM"
    case PUBLIC_TEXT_FROM => "PUBLIC_TEXT_FROM"
    case JOINED_ROOM => "JOINED_ROOM"
    case ROOM_USER_LIST => "ROOM_USER_LIST"
    case ROOM_TEXT_FROM => "ROOM_TEXT_FROM"
    case LEFT_ROOM => "LEFT_ROOM"
    case DISCONNECTED => "DISCONNECTED"
    case RESPONSE => "RESPONSE"
    case UNKNOWN => "UNKNOWN"
  }

  lemma ParseTypeName(t: MessageType)
    ensures ParseType(TypeName(t)) == t
  {
    var s := TypeName(t);
    assert |s| == 4 ==> s[0] == 'T';
  }

  /** Nothing but its own name is read as a type. */
  lemma OnlyNamesParse(s: string, t: MessageType)
    requires t != UNKNOWN
    ensures ParseType(s) == t <==> s == TypeName(t)
  {
    ParseTypeName(t);
    OnlyItsName(s);
  }

  lemma OnlyItsName(s: string)
    ensures ParseType(s) != UNKNOWN ==> s == TypeName(ParseType(s))
  {
    if s == "IDENTIFY" {
    } else if s == "STATUS" {
    } else if s == "USERS" {
    } else if s == "TEXT" {
    } else if s == "PUBLIC_TEXT" {
    } else if s == "NEW_ROOM" {
    } else if s == "INVITE" {
    } else if s == "INVITATION" {
    } else if s == "JOIN_ROOM" {
    } else if s == "ROOM_USERS" {
    } else if s == "ROOM_TEXT" {
    } else if s == "LEAVE_ROOM" {
    } else if s == "DISCONNECT" {
    } else if s == "NEW_STATUS" {
    } else if s == "USER_LIST" {
    } else if s == "TEXT_FROM" {
    } else if s == "PUBLIC_TEXT_FROM" {
    } else if s == "JOINED_ROOM" {
    } else if s == "ROOM_USER_LIST" {
    } else if s == "ROOM_TEXT_FROM" {
    } else if s == "LEFT_ROOM" {
    } else if s == "NEW_USER" {
    } else if s == "DISCONNECTED" {
    } else if s == "RESPONSE" {
    }
  }

  // ---------------------------------------------------------------- looking up object members

  /** ASCII lower case, as the JSON library folds member names. */
  function LowerChar(c: char): char {
    if 'A' <= c <= 'Z' then c - 'A' + 'a' else c
  }

  function Lower(s: string): (r: string)
    ensures |r| == |s|
  {
    seq(|s|, i requires 0 <= i < |s| => LowerChar(s[i]))
  }

  /** The first member whose name equals `key`, as `cJSON_GetObjectItemCaseSensitive` finds it. */
  function Find(fields: seq<Field>, key: string): Option<Json> {
    if fields == [] then None
    else if fields[0].key == key then Some(fields[0].value)
    else Find(fields[1..], key)
  }

  /** The member `cJSON_DetachItemFromObject` detaches: that call ignores case. */
  function FindIgnoringCase(fields: seq<Field>, key: string): Option<Json> {
    if fields == [] then None
    else if Lower(fields[0].key) == Lower(key) then Some(fields[0].value)
    else FindIgnoringCase(fields[1..], key)
  }

  /** Only the letters A to Z are folded. */
  lemma LowerFolds(c: char)
    ensures LowerChar(c) as int == if 65 <= c as int <= 90 then c as int + 32 else c as int
  {
  }

  ghost predicate FirstIgnoringCase(fields: seq<Field>, key: string, i: nat) {
    && i < |fields| && Lower(fields[i].key) == Lower(key)
    && forall j :: 0 <= j < i ==> Lower(fields[j].key) != Lower(key)
  }

  /** What is detached is the first member whose name is the same but for case, if there is one. */
  lemma {:induction false} DetachesFirst(fields: seq<Field>, key: string)
    ensures FindIgnoringCase(fields, key).None?
            <==> forall i :: 0 <= i < |fields| ==> Lower(fields[i].key) != Lower(key)
    ensures forall i: nat ::
              FirstIgnoringCase(fields, key, i) ==> FindIgnoringCase(fields, key) == Some(fields[i].value)
  {
    hide Lower;
    if fields == [] {
    } else {
      DetachesFirst(fields[1..], key);
      assert fields == [fields[0]] + fields[1..];
      forall i: nat | FirstIgnoringCase(fields, key, i)
        ensures FindIgnoringCase(fields, key) == Some(fields[i].value)
      {
        if i > 0 {
          assert Lower(fields[0].key) != Lower(key);
          var k: nat := i - 1;
          assert FirstIgnoringCase(fields[1..], key, k) by {
            assert forall j :: 0 <= j < k ==> fields[1..][j] == fields[j + 1];
          }
        }
      }
    }
  }

  /** `get_string_field`: NULL when the member is missing or is not a string. */
  function StringField(fields: seq<Field>, key: string): Option<string> {
    match Find(fields, key)
    case Some(JString(s)) => Some(s)
    case _ => None
  }

  function Strings(elems: seq<Json>): (r: seq<Option<string>>)
    ensures forall i :: 0 <= i < |r| ==> r[i].Some?
  {
    if elems == [] then []
    else (if elems[0].JString? then [Some(elems[0].s)] else []) + Strings(elems[1..])
  }

  // ---------------------------------------------------------------------- decode and encode

  function DecodeUsernames(item: Option<Json>): Option<seq<Option<string>>> {
    match item
    case Some(JArray(elems)) => if |elems| > 0 then Some(Strings(elems)) else None
    case _ => None
  }

  /** `message_from_json` on a parsed tree; `None` is its refusal. */
  function Decode(json: Json): Option<Message> {
    if !json.JObject? then None
    else
      var f := json.fields;
      match Find(f, "type")
      case None => None
      case Some(t) =>
        Some(Message(
          if t.JString? then ParseType(t.s) else UNKNOWN,
          StringField(f, "username"),
          StringField(f, "operation"),
          StringField(f, "result"),
          StringField(f, "extra"),
          StringField(f, "status"),
          FindIgnoringCase(f, "users"),
          StringField(f, "text"),
          StringField(f, "roomname"),
          DecodeUsernames(Find(f, "usernames"))))
  }

  /** A member that is written only when its pointer is not NULL. */
  datatype Entry = Entry(key: string, value: Option<Json>)

  function Fields(entries: seq<Entry>): seq<Field> {
    if entries == [] then []
    else (if entries[0].value.Some? then [Field(entries[0].key, entries[0].value.value)] else [])
         + Fields(entries[1..])
  }

  function StringEntry(key: string, s: Option<string>): Entry {
    Entry(key, if s.Some? then Some(JString(s.value)) else None)
  }

  /** The elements that are not NULL, as JSON strings. */
  function EncodeStrings(names: seq<Option<string>>): seq<Json> {
    if names == [] then []
    else (if names[0].Some? then [JString(names[0].value)] else []) + EncodeStrings(names[1..])
  }

  function EncodeUsernames(names: Option<seq<Option<string>>>): Option<Json> {
    if names.Some? && |names.value| > 0 then Some(JArray(EncodeStrings(names.value))) else None
  }

  function Entries(m: Message): seq<Entry> {
    [ Entry("type", Some(JString(TypeName(m.kind)))),
      StringEntry("username", m.username),
      StringEntry("operation", m.operation),
      StringEntry("result", m.result),
      StringEntry("extra", m.extra),
      StringEntry("status", m.status),
      StringEntry("text", m.text),
      StringEntry("roomname", m.roomname),
      Entry("users", m.users),
      Entry("usernames", EncodeUsernames(m.usernames)) ]
  }

  /** The tree `message_to_json` prints. */
  function Encode(m: Message): Json {
    JObject(Fields(Entries(m)))
  }

  // ------------------------------------------------------------------------------ round trip

  ghost predicate DistinctKeys(entries: seq<Entry>) {
    forall i, j :: 0 <= i < j < |entries| ==> entries[i].key != entries[j].key
  }

  lemma {:induction false} FindAbsent(entries: seq<Entry>, key: string)
    requires forall i :: 0 <= i < |entries| ==> entries[i].key != key
    ensures Find(Fields(entries), key) == None
  {
    if entries == [] {
    } else {
      FindAbsent(entries[1..], key);
      var f := if entries[0].value.Some? then [Field(entries[0].key, entries[0].value.value)] else [];
      assert Fields(entries) == f + Fields(entries[1..]);
      assert f == [] ==> Fields(entries) == Fields(entries[1..]);
      assert f != [] ==> Fields(entries)[1..] == Fields(entries[1..]);
    }
  }

  /** Every entry with its own name is read back as it was written. */
  lemma {:induction false} FindEntry(entries: seq<Entry>, i: nat)
    requires DistinctKeys(entries) && i < |entries|
    ensures Find(Fields(entries), entries[i].key) == entries[i].value
  {
    var f := if entries[0].value.Some? then [Field(entries[0].key, entries[0].value.value)] else [];
    assert Fields(entries) == f + Fields(entries[1..]);
    if i == 0 {
      FindAbsent(entries[1..], entries[0].key);
    } else {
      FindEntry(entries[1..], i - 1);
    }
    assert f == [] ==> Fields(entries) == Fields(entries[1..]);
    assert f != [] ==> Fields(entries)[1..] == Fields(entries[1..]);
  }

  /** On names that are already lower case the two lookups agree. */
  lemma {:induction false} CaseOnlyMattersForCapitals(fields: seq<Field>, key: string)
    requires Lower(key) == key
    requires forall i :: 0 <= i < |fields| ==> Lower(fields[i].key) == fields[i].key
    ensures FindIgnoringCase(fields, key) == Find(fields, key)
  {
    if fields == [] {
    } else {
      CaseOnlyMattersForCapitals(fields[1..], key);
    }
  }

  lemma {:induction false} FieldsKeepNames(entries: seq<Entry>)
    requires forall i :: 0 <= i < |entries| ==> Lower(entries[i].key) == entries[i].key
    ensures forall i :: 0 <= i < |Fields(entries)| ==> Lower(Fields(entries)[i].key) == Fields(entries)[i].key
  {
    if entries == [] {
    } else {
      FieldsKeepNames(entries[1..]);
    }
  }

  lemma EntryNames(m: Message)
    ensures |Entries(m)| == 10 && DistinctKeys(Entries(m))
    ensures forall i :: 0 <= i < |Entries(m)| ==> Lower(Entries(m)[i].key) == Entries(m)[i].key
  {
    hide TypeName, EncodeUsernames;
  }

  predicate NoNullElements(names: seq<Option<string>>) {
    forall i :: 0 <= i < |names| ==> names[i].Some?
  }

  /** Writing and reading an array of names loses exactly the NULL elements. */
  lemma {:induction false} StringsRoundTrip(names: seq<Option<string>>)
    ensures |Strings(EncodeStrings(names))| <= |names|
    ensures Strings(EncodeStrings(names)) == names <==> NoNullElements(names)
  {
    if names == [] {
    } else {
      StringsRoundTrip(names[1..]);
      var rest := EncodeStrings(names[1..]);
      if names[0].Some? {
        assert EncodeStrings(names) == [JString(names[0].value)] + rest;
        assert EncodeStrings(names)[1..] == rest;
        assert Strings(EncodeStrings(names)) == [names[0]] + Strings(rest);
        assert names == [names[0]] + names[1..];
        if Strings(EncodeStrings(names)) == names {
          assert Strings(rest) == names[1..];
        }
      } else {
        assert EncodeStrings(names) == rest;
      }
    }
  }

  /** The members of an encoded message, one by one. */
  lemma WrittenFields(m: Message)
    ensures var f := Fields(Entries(m));
            && Find(f, "type") == Some(JString(TypeName(m.kind)))
            && Find(f, "username") == StringEntry("username", m.username).value
            && Find(f, "operation") == StringEntry("operation", m.operation).value
            && Find(f, "result") == StringEntry("result", m.result).value
            && Find(f, "extra") == StringEntry("extra", m.extra).value
            && Find(f, "status") == StringEntry("status", m.status).value
            && Find(f, "text") == StringEntry("text", m.text).value
            && Find(f, "roomname") == StringEntry("roomname", m.roomname).value
            && Find(f, "users") == m.users
            && Find(f, "usernames") == EncodeUsernames(m.usernames)
  {
    hide DistinctKeys, Fields, Find, TypeName, EncodeUsernames, StringEntry;
    var es := Entries(m);
    EntryNames(m);
    EntryKeys(m);
    FindEntry(es, 0);
    FindEntry(es, 1);
    FindEntry(es, 2);
    FindEntry(es, 3);
    FindEntry(es, 4);
    FindEntry(es, 5);
    FindEntry(es, 6);
    FindEntry(es, 7);
    FindEntry(es, 8);
    FindEntry(es, 9);
  }

  lemma EntryKeys(m: Message)
    ensures var es := Entries(m);
            && es[0].key == "type" && es[1].key == "username" && es[2].key == "operation"
            && es[3].key == "result" && es[4].key == "extra" && es[5].key == "status"
            && es[6].key == "text" && es[7].key == "roomname" && es[8].key == "users"
            && es[9].key == "usernames"
  {
  }

  lemma UsersFoundIgnoringCase(m: Message)
    ensures FindIgnoringCase(Fields(Entries(m)), "users") == Find(Fields(Entries(m)), "users")
  {
    hide Fields, Find, FindIgnoringCase, Entries;
    EntryNames(m);
    FieldsKeepNames(Entries(m));
    assert Lower("users") == "users";
    CaseOnlyMattersForCapitals(Fields(Entries(m)), "users");
  }

  /** What decoding makes of an encoded message: everything returns except the array of names. */
  lemma DecodeEncode(m: Message)
    ensures Decode(Encode(m)) == Some(m.(usernames := DecodeUsernames(EncodeUsernames(m.usernames))))
  {
    hide Find, FindIgnoringCase, Fields, Entries, TypeName, ParseType, DecodeUsernames, EncodeUsernames;
    WrittenFields(m);
    UsersFoundIgnoringCase(m);
    ParseTypeName(m.kind);
  }

  lemma KindOf(json: Json, t: MessageType, name: string)
    requires Decode(json).Some? && t != UNKNOWN && name == TypeName(t)
    ensures Decode(json).value.kind == t <==> Find(json.fields, "type") == Some(JString(name))
  {
    hide ParseType, TypeName, Find, FindIgnoringCase;
    var typeItem := Find(json.fields, "type").value;
    if typeItem.JString? {
      OnlyNamesParse(typeItem.s, t);
    }
  }

  /** What type an object has: the one it names, and none if it names no type. */
  lemma KindsByName(json: Json)
    requires Decode(json).Some?
    ensures var kind := Decode(json).value.kind;
            var typeItem := Find(json.fields, "type");
            && (kind == IDENTIFY <==> typeItem == Some(JString("IDENTIFY")))
            && (kind == STATUS <==> typeItem == Some(JString("STATUS")))
            && (kind == USERS <==> typeItem == Some(JString("USERS")))
            && (kind == TEXT <==> typeItem == Some(JString("TEXT")))
            && (kind == PUBLIC_TEXT <==> typeItem == Some(JString("PUBLIC_TEXT")))
            && (kind == NEW_ROOM <==> typeItem == Some(JString("NEW_ROOM")))
            && (kind == INVITE <==> typeItem == Some(JString("INVITE")))
            && (kind == INVITATION <==> typeItem == Some(JString("INVITATION")))
            && (kind == JOIN_ROOM <==> typeItem == Some(JString("JOIN_ROOM")))
            && (kind == ROOM_USERS <==> typeItem == Some(JString("ROOM_USERS")))
            && (kind == ROOM_TEXT <==> typeItem == Some(JString("ROOM_TEXT")))
            && (kind == LEAVE_ROOM <==> typeItem == Some(JString("LEAVE_ROOM")))
            && (kind == DISCONNECT <==> typeItem == Some(JString("DISCONNECT")))
            && (kind == NEW_USER <==> typeItem == Some(JString("NEW_USER")))
            && (kind == NEW_STATUS <==> typeItem == Some(JString("NEW_STATUS")))
            && (kind == USER_LIST <==> typeItem == Some(JString("USER_LIST")))
            && (kind == TEXT_FROM <==> typeItem == Some(JString("TEXT_FROM")))
            && (kind == PUBLIC_TEXT_FROM <==> typeItem == Some(JString("PUBLIC_TEXT_FROM")))
            && (kind == JOINED_ROOM <==> typeItem == Some(JString("JOINED_ROOM")))
            && (kind == ROOM_USER_LIST <==> typeItem == Some(JString("ROOM_USER_LIST")))
            && (kind == ROOM_TEXT_FROM <==> typeItem == Some(JString("ROOM_TEXT_FROM")))
            && (kind == LEFT_ROOM <==> typeItem == Some(JString("LEFT_ROOM")))
            && (kind == DISCONNECTED <==> typeItem == Some(JString("DISCONNECTED")))
            && (kind == RESPONSE <==> typeItem == Some(JString("RESPONSE")))
  {
    hide Decode, Find;
    KindOf(json, IDENTIFY, "IDENTIFY");
    KindOf(json, STATUS, "STATUS");
    KindOf(json, USERS, "USERS");
    KindOf(json, TEXT, "TEXT");
    KindOf(json, PUBLIC_TEXT, "PUBLIC_TEXT");
    KindOf(json, NEW_ROOM, "NEW_ROOM");
    KindOf(json, INVITE, "INVITE");
    KindOf(json, INVITATION, "INVITATION");
    KindOf(json, JOIN_ROOM, "JOIN_ROOM");
    KindOf(json, ROOM_USERS, "ROOM_USERS");
    KindOf(json, ROOM_TEXT, "ROOM_TEXT");
    KindOf(json, LEAVE_ROOM, "LEAVE_ROOM");
    KindOf(json, DISCONNECT, "DISCONNECT");
    KindOf(json, NEW_USER, "NEW_USER");
    KindOf(json, NEW_STATUS, "NEW_STATUS");
    KindOf(json, USER_LIST, "USER_LIST");
    KindOf(json, TEXT_FROM, "TEXT_FROM");
    KindOf(json, PUBLIC_TEXT_FROM, "PUBLIC_TEXT_FROM");
    KindOf(json, JOINED_ROOM, "JOINED_ROOM");
    KindOf(json, ROOM_USER_LIST, "ROOM_USER_LIST");
    KindOf(json, ROOM_TEXT_FROM, "ROOM_TEXT_FROM");
    KindOf(json, LEFT_ROOM, "LEFT_ROOM");
    KindOf(json, DISCONNECTED, "DISCONNECTED");
    KindOf(json, RESPONSE, "RESPONSE");
  }

  /** The array of names is absent, or has elements and none of them is NULL. */
  predicate Transmissible(m: Message) {
    m.usernames.Some? ==> |m.usernames.value| > 0 && NoNullElements(m.usernames.value)
  }

  /** The codec round trip holds for exactly the transmissible messages. */
  lemma RoundTrip(m: Message)
    ensures Decode(Encode(m)) == Some(m) <==> Transmissible(m)
  {
    DecodeEncode(m);
    if m.usernames.Some? {
      StringsRoundTrip(m.usernames.value);
      if |m.usernames.value| > 0 && NoNullElements(m.usernames.value) {
        assert EncodeStrings(m.usernames.value) != [];
      }
    }
  }

  /** The input has an array of names that is not empty and holds no string. */
  predicate NamesWithoutStrings(json: Json) {
    json.JObject? &&
    match Find(json.fields, "usernames")
    case Some(JArray(elems)) => |elems| > 0 && forall i :: 0 <= i < |elems| ==> !elems[i].JString?
    case _ => false
  }

  lemma {:induction false} StringsEmpty(elems: seq<Json>)
    ensures Strings(elems) == [] <==> forall i :: 0 <= i < |elems| ==> !elems[i].JString?
  {
    if elems == [] {
    } else {
      StringsEmpty(elems[1..]);
      assert elems == [elems[0]] + elems[1..];
    }
  }

  /** Decoding, encoding and decoding again equals one decoding, except for exactly the inputs
      whose array of names holds something but no string: there the array is lost on the way. */
  lemma DecodeIsStable(json: Json)
    requires Decode(json).Some?
    ensures Decode(Encode(Decode(json).value)) == Decode(json) <==> !NamesWithoutStrings(json)
  {
    var m := Decode(json).value;
    RoundTrip(m);
    match Find(json.fields, "usernames")
    case Some(JArray(elems)) => StringsEmpty(elems);
    case _ =>
  }

  lemma FindSecond(a: Field, b: Field)
    requires a.key != b.key
    ensures Find([a, b], a.key) == Some(a.value) && Find([a, b], b.key) == Some(b.value)
  {
  }

  /** An accepted input on which the stability above fails. */
  lemma DecodeIsNotAlwaysStable()
    ensures exists json :: Decode(json).Some? && Decode(Encode(Decode(json).value)) != Decode(json)
  {
    var elems := [JNumber(1.0)];
    var a, b := Field("usernames", JArray(elems)), Field("type", JNull);
    assert a.key != b.key;
    FindSecond(a, b);
    hide Find, FindIgnoringCase, ParseType, Encode;
    DecodeIsStable(JObject([a, b]));
  }

  /** Exactly the messages whose array of names is absent or free of NULL can come from a decode. */
  lemma DecodableMessages(m: Message)
    ensures (exists json :: Decode(json) == Some(m)) <==>
            (m.usernames.Some? ==> NoNullElements(m.usernames.value))
  {
    if m.usernames.Some? ==> NoNullElements(m.usernames.value) {
      if m.usernames == Some([]) {
        DecodeEmptyNames(m);
      } else {
        RoundTrip(m);
      }
    }
  }

  /** An empty, non-NULL array of names is what an array without strings decodes to. */
  lemma DecodeEmptyNames(m: Message)
    requires m.usernames == Some([])
    ensures exists json :: Decode(json) == Some(m)
  {
    var plain := m.(usernames := None);
    hide Find, FindIgnoringCase, Fields, Entries, TypeName, ParseType;
    DecodeEncode(plain);
    WrittenFields(plain);
    var fs := Fields(Entries(plain)) + [Field("usernames", JArray([JNull]))];
    AppendField(Fields(Entries(plain)), Field("usernames", JArray([JNull])));
    assert Strings([JNull]) == [] by {
      assert [JNull][1..] == [];
    }
    assert Lower("usernames") != Lower("users");
    assert Decode(JObject(fs)) == Some(m);
  }

  lemma {:induction false} AppendField(fields: seq<Field>, f: Field)
    ensures forall key :: Find(fields + [f], key) ==
              if Find(fields, key).Some? || key != f.key then Find(fields, key) else Some(f.value)
    ensures forall key :: Lower(key) != Lower(f.key) ==>
              FindIgnoringCase(fields + [f], key) == FindIgnoringCase(fields, key)
  {
    if fields == [] {
      assert [f][1..] == [];
      assert fields + [f] == [f];
    } else {
      assert (fields + [f])[1..] == fields[1..] + [f];
      AppendField(fields[1..], f);
    }
  }

  // ------------------------------------------------------------------- message.c, step by step

  lemma {:induction false} FieldsConcat(a: seq<Entry>, b: seq<Entry>)
    ensures Fields(a + b) == Fields(a) + Fields(b)
  {
    if a == [] {
      assert a + b == b;
    } else {
      assert (a + b)[1..] == a[1..] + b && (a + b)[0] == a[0];
      FieldsConcat(a[1..], b);
      var head := if a[0].value.Some? then [Field(a[0].key, a[0].value.value)] else [];
      var x, y := Fields(a[1..]), Fields(b);
      assert Fields(a) == head + x;
      assert Fields(a + b) == head + (x + y);
    }
  }

  lemma {:induction false} StringsConcat(a: seq<Json>, b: seq<Json>)
    ensures Strings(a + b) == Strings(a) + Strings(b)
  {
    if a == [] {
      assert a + b == b;
    } else {
      assert (a + b)[1..] == a[1..] + b && (a + b)[0] == a[0];
      StringsConcat(a[1..], b);
      var head := if a[0].JString? then [Some(a[0].s)] else [];
      var x, y := Strings(a[1..]), Strings(b);
      assert Strings(a) == head + x;
      assert Strings(a + b) == head + (x + y);
    }
  }

  lemma {:induction false} EncodeStringsConcat(a: seq<Option<string>>, b: seq<Option<string>>)
    ensures EncodeStrings(a + b) == EncodeStrings(a) + EncodeStrings(b)
  {
    if a == [] {
      assert a + b == b;
    } else {
      assert (a + b)[1..] == a[1..] + b && (a + b)[0] == a[0];
      EncodeStringsConcat(a[1..], b);
      var head := if a[0].Some? then [JString(a[0].value)] else [];
      var x, y := EncodeStrings(a[1..]), EncodeStrings(b);
      assert EncodeStrings(a) == head + x;
      assert EncodeStrings(a + b) == head + (x + y);
    }
  }

  method MessageFromJson(json: Json) returns (r: Option<Message>)
    ensures r == Decode(json)
  {
    if !json.JObject? {
      return None;
    }
    var typeItem := Find(json.fields, "type");
    if typeItem.None? {
      return None;
    }
    var msg := BLANK;
    if typeItem.value.JString? {
      msg := msg.(kind := ParseType(typeItem.value.s));
    }
    msg := msg.(
      username := StringField(json.fields, "username"),
      operation := StringField(json.fields, "operation"),
      result := StringField(json.fields, "result"),
      extra := StringField(json.fields, "extra"),
      status := StringField(json.fields, "status"),
      text := StringField(json.fields, "text"),
      roomname := StringField(json.fields, "roomname"),
      users := FindIgnoringCase(json.fields, "users"));
    var item := Find(json.fields, "usernames");
    if item.Some? && item.value.JArray? {
      var elems := item.value.elems;
      if |elems| > 0 {
        var names: seq<Option<string>> := [];
        for i := 0 to |elems|
          invariant names == Strings(elems[..i])
        {
          assert elems[..i + 1] == elems[..i] + [elems[i]];
          StringsConcat(elems[..i], [elems[i]]);
          if elems[i].JString? {
            names := names + [Some(elems[i].s)];
          }
        }
        assert elems[..|elems|] == elems;
        msg := msg.(usernames := Some(names));
      }
    }
    r := Some(msg);
  }

  /** `cJSON_AddStringToObject` and its like, guarded by the test for NULL. `e` is the `k`-th of the
      entries `es`, and those before it are written. */
  method AddEntry(fields: seq<Field>, e: Entry, ghost es: seq<Entry>, ghost k: nat) returns (r: seq<Field>)
    requires k < |es| && es[k] == e
    requires fields == Fields(es[..k])
    ensures r == Fields(es[..k + 1])
  {
    r := fields;
    if e.value.Some? {
      r := r + [Field(e.key, e.value.value)];
    }
    FieldsConcat(es[..k], [e]);
    assert [e][1..] == [];
    assert es[..k + 1] == es[..k] + [e];
  }

  method UsernamesToJson(names: seq<Option<string>>) returns (elems: seq<Json>)
    ensures elems == EncodeStrings(names)
  {
    elems := [];
    for i := 0 to |names|
      invariant elems == EncodeStrings(names[..i])
    {
      assert names[..i + 1] == names[..i] + [names[i]];
      EncodeStringsConcat(names[..i], [names[i]]);
      if names[i].Some? {
        elems := elems + [JString(names[i].value)];
      }
    }
    assert names[..|names|] == names;
  }

  /** The eight members that are strings. */
  method StringsToJson(m: Message) returns (fields: seq<Field>)
    ensures fields == Fields(Entries(m)[..8])
  {
    ghost var es := Entries(m);
    assert Fields(es[..0]) == [];
    hide Fields, TypeName, EncodeUsernames;
    fields := AddEntry([], Entry("type", Some(JString(TypeName(m.kind)))), es, 0);
    fields := AddEntry(fields, StringEntry("username", m.username), es, 1);
    fields := AddEntry(fields, StringEntry("operation", m.operation), es, 2);
    fields := AddEntry(fields, StringEntry("result", m.result), es, 3);
    fields := AddEntry(fields, StringEntry("extra", m.extra), es, 4);
    fields := AddEntry(fields, StringEntry("status", m.status), es, 5);
    fields := AddEntry(fields, StringEntry("text", m.text), es, 6);
    fields := AddEntry(fields, StringEntry("roomname", m.roomname), es, 7);
  }

  method MessageToJson(m: Message) returns (json: Json)
    ensures json == Encode(m)
  {
    ghost var es := Entries(m);
    var fields := StringsToJson(m);
    fields := AddEntry(fields, Entry("users", m.users), es, 8);
    var names: Option<Json> := None;
    if m.usernames.Some? && |m.usernames.value| > 0 {
      var elems := UsernamesToJson(m.usernames.value);
      names := Some(JArray(elems));
    }
    fields := AddEntry(fields, Entry("usernames", names), es, 9);
    assert es[..10] == es;
    json := JObject(fields);
  }
}
