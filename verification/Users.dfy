/** Database rows, the `User` mappers and the JSON list of users. */
module Users {
  import opened Prelude
  import opened Http
  import opened Json
  import JsonExact
  import JsonRoundTrip
  import Utf8

  /** What the client library makes of a column value; `None` when a conversion throws. */
  datatype Column = Column(asInt: Option<int32>, asText: Option<Bytes>)

  type Row = map<Bytes, Column>

  // "id", "name", "age" and "users"
  const ID_KEY: Bytes := [105, 100]
  const NAME_KEY: Bytes := [110, 97, 109, 101]
  const AGE_KEY: Bytes := [97, 103, 101]
  const USERS_KEY: Bytes := [117, 115, 101, 114, 115]

  /** `PgRowMapper<User>::map`; `None` when a column is missing or does not convert. */
  function MapRow(row: Row): Option<User> {
    if ID_KEY in row && NAME_KEY in row && AGE_KEY in row then
      match (row[ID_KEY].asInt, row[NAME_KEY].asText, row[AGE_KEY].asInt)
      case (Some(id), Some(name), Some(age)) => Some(User(id, name, age))
      case _ => None
    else None
  }

  function UserToJson(user: User): Json {
    JObject(Put(Put(Put([], ID_KEY, JInt(user.id)), NAME_KEY, JString(user.name)), AGE_KEY, JInt(user.age)))
  }

  function UsersToItems(users: seq<User>): seq<Json> {
    seq(|users|, i requires 0 <= i < |users| => UserToJson(users[i]))
  }

  function UsersToJson(users: seq<User>): Json {
    JObject(Put([], USERS_KEY, JArray(UsersToItems(users))))
  }

  /** `JsonMapper<std::vector<User>>::map`. */
  method MapUsers(users: seq<User>) returns (result: Json)
    ensures result == UsersToJson(users)
  {
    var list: seq<Json> := [];
    for i := 0 to |users|
      invariant list == UsersToItems(users[..i])
    {
      assert UsersToItems(users[..i + 1]) == UsersToItems(users[..i]) + [UserToJson(users[i])];
      list := list + [UserToJson(users[i])];
    }
    assert users[..|users|] == users;
    result := JObject(Put([], USERS_KEY, JArray(list)));
  }

  predicate IsInt32(n: int) {
    -0x8000_0000 <= n < 0x8000_0000
  }

  /** An entity read back from its JSON object. */
  function JsonToUser(j: Json): Option<User> {
    if !j.JObject? then None
    else
      match (At(j.fields, ID_KEY), At(j.fields, NAME_KEY), At(j.fields, AGE_KEY))
      case (Some(JInt(id)), Some(JString(name)), Some(JInt(age))) =>
        if IsInt32(id) && IsInt32(age) then Some(User(id, name, age)) else None
      case _ => None
  }

  /** The list in a `users` document, read back item by item; `None` when the shape is different. */
  function UsersOf(j: Json): Option<seq<User>> {
    if !j.JObject? then None
    else
      match At(j.fields, USERS_KEY)
      case Some(JArray(items)) => UsersOfItems(items)
      case _ => None
  }

  function UsersOfItems(items: seq<Json>): Option<seq<User>> {
    if items == [] then Some([])
    else
      match (JsonToUser(items[0]), UsersOfItems(items[1..]))
      case (Some(user), Some(users)) => Some([user] + users)
      case _ => None
  }

  lemma KeysAreOrdered()
    ensures Less(AGE_KEY, ID_KEY) && Less(ID_KEY, NAME_KEY) && Less(AGE_KEY, NAME_KEY)
    ensures !Less(ID_KEY, AGE_KEY) && !Less(NAME_KEY, ID_KEY) && !Less(NAME_KEY, AGE_KEY)
  {
    JsonRoundTrip.LessIsTransitive(AGE_KEY, ID_KEY, NAME_KEY);
    JsonRoundTrip.LessIsStrict(AGE_KEY, ID_KEY);
    JsonRoundTrip.LessIsStrict(ID_KEY, NAME_KEY);
    JsonRoundTrip.LessIsStrict(AGE_KEY, NAME_KEY);
  }

  lemma KeysAreValid()
    ensures Utf8.Valid(AGE_KEY) && Utf8.Valid(ID_KEY) && Utf8.Valid(NAME_KEY) && Utf8.Valid(USERS_KEY)
  {
    Utf8.AsciiIsValid(AGE_KEY);
    Utf8.AsciiIsValid(ID_KEY);
    Utf8.AsciiIsValid(NAME_KEY);
    Utf8.AsciiIsValid(USERS_KEY);
  }

  /** The object keeps its fields in key order whatever order they were set in. */
  lemma UserFields(user: User)
    ensures UserToJson(user)
         == JObject([Field(AGE_KEY, JInt(user.age)), Field(ID_KEY, JInt(user.id)), Field(NAME_KEY, JString(user.name))])
  {
    KeysAreOrdered();
    var id, name, age := Field(ID_KEY, JInt(user.id)), Field(NAME_KEY, JString(user.name)), Field(AGE_KEY, JInt(user.age));
    assert Put([], ID_KEY, JInt(user.id)) == [id];
    assert [id][1..] == [];
    assert Put([id], NAME_KEY, JString(user.name)) == [id] + [name];
    assert Put([id] + [name], AGE_KEY, JInt(user.age)) == [age] + ([id] + [name]);
  }

  lemma UserRoundTrip(user: User)
    ensures JsonToUser(UserToJson(user)) == Some(user)
  {
    UserFields(user);
    KeysAreOrdered();
    var fields := UserToJson(user).fields;
    assert At(fields, AGE_KEY) == Some(JInt(user.age));
    assert At(fields, ID_KEY) == At(fields[1..], ID_KEY) == Some(JInt(user.id));
    assert At(fields, NAME_KEY) == At(fields[1..], NAME_KEY) == At(fields[1..][1..], NAME_KEY);
  }

  lemma UserIsWellFormed(user: User)
    ensures JsonRoundTrip.Exact(UserToJson(user))
    ensures Utf8.Valid(user.name) ==> JsonRoundTrip.WellFormed(UserToJson(user))
  {
    UserFields(user);
    KeysAreOrdered();
    KeysAreValid();
    var fields := UserToJson(user).fields;
    assert JsonRoundTrip.Exact(fields[0].val) && JsonRoundTrip.Exact(fields[1].val) && JsonRoundTrip.Exact(fields[2].val);
    assert JsonRoundTrip.WellFormed(fields[0].val) && JsonRoundTrip.WellFormed(fields[1].val);
    assert Utf8.Valid(user.name) ==> JsonRoundTrip.WellFormed(fields[2].val);
  }

  lemma {:induction false} ItemsRoundTrip(users: seq<User>)
    ensures UsersOfItems(UsersToItems(users)) == Some(users)
  {
    if users != [] {
      UserRoundTrip(users[0]);
      ItemsRoundTrip(users[1..]);
      assert UsersToItems(users)[1..] == UsersToItems(users[1..]);
      assert [users[0]] + users[1..] == users;
    }
  }

  lemma UsersFields(users: seq<User>)
    ensures UsersToJson(users) == JObject([Field(USERS_KEY, JArray(UsersToItems(users)))])
    ensures UsersOf(UsersToJson(users)) == Some(users)
  {
    ItemsRoundTrip(users);
    assert UsersToJson(users).fields[0].key == USERS_KEY;
  }

  lemma UsersAreWellFormed(users: seq<User>)
    requires forall i :: 0 <= i < |users| ==> Utf8.Valid(users[i].name)
    ensures JsonRoundTrip.WellFormed(UsersToJson(users)) && JsonRoundTrip.Exact(UsersToJson(users))
  {
    var items := UsersToItems(users);
    forall i | 0 <= i < |items| ensures JsonRoundTrip.WellFormed(items[i]) && JsonRoundTrip.Exact(items[i]) {
      UserIsWellFormed(users[i]);
    }
    KeysAreValid();
    assert JsonRoundTrip.WellFormed(JArray(items)) && JsonRoundTrip.Exact(JArray(items));
    JsonRoundTrip.OneFieldObject(USERS_KEY, JArray(items));
  }

  /** A list of users whose names are valid UTF-8 prints, and its text parses
      back to exactly that list: one entry per user, in order, equal member by member. */
  lemma UsersTextRoundTrip(users: seq<User>)
    requires forall i :: 0 <= i < |users| ==> Utf8.Valid(users[i].name)
    ensures Dump(UsersToJson(users)).Some?
    ensures var j := ParseText(Dump(UsersToJson(users)).value); j.Some? && UsersOf(j.value) == Some(users)
  {
    UsersAreWellFormed(users);
    JsonRoundTrip.RoundTrip(UsersToJson(users));
    UsersFields(users);
  }

  lemma {:induction false} BadItemFails(items: seq<Json>, i: nat)
    requires i < |items| && Dump(items[i]).None?
    ensures DumpItems(items).None?
  {
    if i > 0 {
      BadItemFails(items[1..], i - 1);
    }
  }

  /** One name that is not valid UTF-8 and the whole list fails to print. */
  lemma BadNameFails(users: seq<User>, i: nat)
    requires i < |users| && !Utf8.Valid(users[i].name)
    ensures Dump(UsersToJson(users)).None?
  {
    var user := users[i];
    UserFields(user);
    JsonRoundTrip.DumpCharsIffValid(user.name);
    BadLastField(UserToJson(user).fields);
    BadItemFails(UsersToItems(users), i);
    UsersFields(users);
    var f := Field(USERS_KEY, JArray(UsersToItems(users)));
    assert Dump(f.val).None?;
    assert DumpField(f).None?;
  }

  lemma BadLastField(fields: seq<Field>)
    requires |fields| == 3 && Dump(fields[2].val).None?
    ensures Dump(JObject(fields)).None?
  {
    assert DumpField(fields[2]).None?;
    assert fields[1..][1..][0] == fields[2] && fields[1..][0] == fields[1];
    assert DumpFields(fields[1..][1..]).None?;
    assert DumpFields(fields[1..]).None?;
  }

  // ------------------------------------------------------------ lists, as bytes

  /** `{"age":`, the age, `,"id":`, the id, `,"name":"`, the name, `"}`. */
  function UserText(user: User): Bytes
    requires DumpChars(user.name).Some?
  {
    [123, 34, 97, 103, 101, 34, 58] + DumpInt(user.age)
    + ([44, 34, 105, 100, 34, 58] + DumpInt(user.id))
    + ([44, 34, 110, 97, 109, 101, 34, 58, 34] + DumpChars(user.name).value + [34, 125])
  }

  function UserTexts(users: seq<User>): Bytes
    requires forall i :: 0 <= i < |users| ==> DumpChars(users[i].name).Some?
  {
    if users == [] then []
    else if |users| == 1 then UserText(users[0])
    else UserText(users[0]) + [44] + UserTexts(users[1..])
  }

  lemma ThreeFieldsDump(f: Field, g: Field, h: Field)
    requires DumpField(f).Some? && DumpField(g).Some? && DumpField(h).Some?
    ensures Dump(JObject([f, g, h]))
         == Some([123] + (DumpField(f).value + [44] + (DumpField(g).value + [44] + DumpField(h).value)) + [125])
  {
    var fields := [f, g, h];
    assert fields[1..] == [g, h] && [g, h][1..] == [h] && [h][1..] == [];
    assert DumpFields([h]) == DumpField(h);
    assert DumpFields([g, h]) == Some(DumpField(g).value + [44] + DumpField(h).value);
    assert DumpFields(fields) == Some(DumpField(f).value + [44] + (DumpField(g).value + [44] + DumpField(h).value));
  }

  lemma FieldDumps(key: Bytes, val: Json)
    requires DumpChars(key) == Some(key) && Dump(val).Some?
    ensures DumpField(Field(key, val)) == Some([34] + key + [34] + [58] + Dump(val).value)
  {
    assert DumpString(key) == Some([34] + key + [34]);
  }

  lemma PlainKey(key: Bytes)
    requires forall i :: 0 <= i < |key| ==> 0x20 <= key[i] < 0x80 && key[i] != 34 && key[i] != 92
    ensures DumpChars(key) == Some(key)
  {
    Utf8.AsciiIsValid(key);
    JsonExact.PlainTextPrints(key);
  }

  lemma AgeKeyPrints()
    ensures DumpChars(AGE_KEY) == Some(AGE_KEY)
  {
    PlainKey(AGE_KEY);
  }

  lemma IdKeyPrints()
    ensures DumpChars(ID_KEY) == Some(ID_KEY)
  {
    PlainKey(ID_KEY);
  }

  lemma NameKeyPrints()
    ensures DumpChars(NAME_KEY) == Some(NAME_KEY)
  {
    PlainKey(NAME_KEY);
  }

  lemma UsersKeyPrints()
    ensures DumpChars(USERS_KEY) == Some(USERS_KEY)
  {
    PlainKey(USERS_KEY);
  }

  lemma PackUser(age: Bytes, id: Bytes, name: Bytes, a: Bytes, b: Bytes, c: Bytes)
    ensures [123] + (([34] + age + [34] + [58] + a) + [44] + (([34] + id + [34] + [58] + b) + [44] + ([34] + name + [34] + [58] + ([34] + c + [34])))) + [125]
         == ([123, 34] + age + [34, 58]) + a + (([44, 34] + id + [34, 58]) + b) + (([44, 34] + name + [34, 58, 34]) + c + [34, 125])
  {
  }

  lemma KeyTexts()
    ensures [123, 34] + AGE_KEY + [34, 58] == [123, 34, 97, 103, 101, 34, 58]
    ensures [44, 34] + ID_KEY + [34, 58] == [44, 34, 105, 100, 34, 58]
    ensures [44, 34] + NAME_KEY + [34, 58, 34] == [44, 34, 110, 97, 109, 101, 34, 58, 34]
  {
  }

  lemma UserPrintsBy(user: User, ageKey: Bytes, idKey: Bytes, nameKey: Bytes)
    requires DumpChars(user.name).Some?
    requires DumpChars(ageKey) == Some(ageKey) && DumpChars(idKey) == Some(idKey) && DumpChars(nameKey) == Some(nameKey)
    ensures Dump(JObject([Field(ageKey, JInt(user.age)), Field(idKey, JInt(user.id)), Field(nameKey, JString(user.name))]))
         == Some(([123, 34] + ageKey + [34, 58]) + DumpInt(user.age) + (([44, 34] + idKey + [34, 58]) + DumpInt(user.id))
                 + (([44, 34] + nameKey + [34, 58, 34]) + DumpChars(user.name).value + [34, 125]))
  {
    FieldDumps(ageKey, JInt(user.age));
    FieldDumps(idKey, JInt(user.id));
    FieldDumps(nameKey, JString(user.name));
    ThreeFieldsDump(Field(ageKey, JInt(user.age)), Field(idKey, JInt(user.id)), Field(nameKey, JString(user.name)));
    PackUser(ageKey, idKey, nameKey, DumpInt(user.age), DumpInt(user.id), DumpChars(user.name).value);
  }

  /** The bytes of one user. */
  lemma UserPrints(user: User)
    requires DumpChars(user.name).Some?
    ensures Dump(UserToJson(user)) == Some(UserText(user))
  {
    UserFields(user);
    AgeKeyPrints();
    IdKeyPrints();
    NameKeyPrints();
    var age, id, name := AGE_KEY, ID_KEY, NAME_KEY;
    UserPrintsBy(user, age, id, name);
    KeyTexts();
  }

  lemma {:induction false} ItemsPrint(users: seq<User>)
    requires forall i :: 0 <= i < |users| ==> DumpChars(users[i].name).Some?
    ensures DumpItems(UsersToItems(users)) == Some(UserTexts(users))
  {
    if users != [] {
      UserPrints(users[0]);
      ItemsPrint(users[1..]);
      assert UsersToItems(users)[1..] == UsersToItems(users[1..]);
    }
  }

  lemma PackList(key: Bytes, text: Bytes)
    ensures [123] + ([34] + key + [34] + [58] + ([91] + text + [93])) + [125] == ([123, 34] + key + [34, 58, 91]) + text + [93, 125]
  {
  }

  lemma ListDumps(key: Bytes, items: seq<Json>)
    requires DumpChars(key) == Some(key) && DumpItems(items).Some?
    ensures Dump(JObject([Field(key, JArray(items))])) == Some(([123, 34] + key + [34, 58, 91]) + DumpItems(items).value + [93, 125])
  {
    var f := Field(key, JArray(items));
    FieldDumps(key, JArray(items));
    var fields := [f];
    assert fields[1..] == [];
    assert DumpFields(fields) == DumpField(f);
    PackList(key, DumpItems(items).value);
  }

  lemma ListOpening()
    ensures [123, 34] + USERS_KEY + [34, 58, 91] == [123, 34, 117, 115, 101, 114, 115, 34, 58, 91]
  {
  }

  /** The bytes of a list: `{"users":[`, the users with commas between them, `]}`. */
  lemma {:induction false} UsersPrint(users: seq<User>)
    requires forall i :: 0 <= i < |users| ==> Utf8.Valid(users[i].name)
    ensures forall i :: 0 <= i < |users| ==> DumpChars(users[i].name).Some?
    ensures Dump(UsersToJson(users)) == Some([123, 34, 117, 115, 101, 114, 115, 34, 58, 91] + UserTexts(users) + [93, 125])
  {
    forall i | 0 <= i < |users| ensures DumpChars(users[i].name).Some? {
      JsonRoundTrip.DumpCharsIffValid(users[i].name);
    }
    UsersFields(users);
    UsersKeyPrints();
    ItemsPrint(users);
    ListDumps(USERS_KEY, UsersToItems(users));
    ListOpening();
  }
}
