/**
 * The `User` entity and the demonstration driver: create a user, change its
 * age, delete it, and look at what the session staged.
 */
module Demo {
  import opened Wrappers
  import opened Values
  import opened AuditLog
  import opened CustomBase

  /** `User`'s table and its mapped columns in declaration order. */
  const UserTable: string := "user"
  const UserColumns: seq<string> := ["id", "name", "age"]

  /**
   * `User(name=..., age=...)`: the generated constructor assigns its keyword
   * arguments in order through `SetField`, so each stages an `insert`.
   */
  method NewUser(session: Session, name: Value, age: Value) returns (user: Entity)
    modifies session`staged
    ensures fresh(user) && user.Valid()
    ensures user.session == session && user.table == UserTable && user.className == "User"
    ensures user.columns == UserColumns
    ensures user.dict == Store(["name", "age"], map["name" := name, "age" := age])
    ensures session.staged == old(session.staged) + [
      LogRecord(UserTable, "name", Stringify(name), None, Insert),
      LogRecord(UserTable, "age", Stringify(age), None, Insert)]
  {
    user := new Entity(session, UserTable, "User", UserColumns);
    NotReserved("name");
    NotReserved("age");
    var r := user.SetField("name", name);
    r := user.SetField("age", age);
  }

  /**
   * The driver: `User(name='Max', age=20)`, commit and query (the row, with
   * the store-assigned id `rowId`, is loaded back), `age = 21`, commit and
   * query again, `delete()`. Exactly four records are staged, in this order.
   */
  method Driver(rowId: int) returns (log: seq<LogRecord>)
    ensures log == [
      LogRecord("user", "name", "Max", None, Insert),
      LogRecord("user", "age", "20", None, Insert),
      LogRecord("user", "age", "21", Some("20"), Update),
      LogRecord("user", "id", "<User(" + Join(", ", ["id=" + IntToString(rowId), "name=Max", "age=21"]) + ")>", None, Action.Delete)]
  {
    var session := new Session();
    AgeTexts();
    var user := NewUser(session, StrV("Max"), IntV(20));
    ReloadAndSetAge(user, IntV(rowId), StrV("Max"), IntV(20), IntV(21));
    assert AuditRecords(UserTable, "age", IntV(20), IntV(21)) == [LogRecord("user", "age", "21", Some("20"), Update)];
    ReloadAndDelete(user, IntV(rowId), StrV("Max"), IntV(21));
    assert "id=" + Stringify(IntV(rowId)) == "id=" + IntToString(rowId);
    assert "name=" + Stringify(StrV("Max")) == "name=Max";
    assert "age=" + Stringify(IntV(21)) == "age=21";
    log := session.staged;
  }

  /**
   * The driver's middle step: after the commit the user is loaded again from
   * its row `(id, name, age)`, then its age is set.
   */
  method ReloadAndSetAge(user: Entity, id: Value, name: Value, age: Value, newAge: Value)
    requires user.Valid() && user.columns == UserColumns && user.table == UserTable
    requires forall k :: k in user.dict.order ==> k in UserColumns
    modifies user, user.session`staged
    ensures user.Valid()
    ensures user.dict.order == UserColumns
    ensures user.session.staged == old(user.session.staged) + AuditRecords(UserTable, "age", age, newAge)
  {
    ReloadedUser(user.dict, id, name, age);
    user.Reload([id, name, age]);
    NotReserved("age");
    assert user.GetField("age") == Success(age);
    ghost var before := user.session.staged;
    assert before == old(user.session.staged);
    var r := user.SetField("age", newAge);
    assert r == Pass;
    assert user.session.staged == before + AuditRecords(UserTable, "age", age, newAge);
  }

  /**
   * The driver's last step: after the commit the user is loaded again from
   * its row, then deleted; the `delete` record carries the reloaded text.
   */
  method ReloadAndDelete(user: Entity, id: Value, name: Value, age: Value)
    requires user.Valid() && user.columns == UserColumns && user.className == "User"
    requires user.dict.order == UserColumns
    modifies user, user.session`staged, user.session`removed
    ensures user.session.staged == old(user.session.staged) + [LogRecord(user.table, "id",
      "<User(" + Join(", ", ["id=" + Stringify(id), "name=" + Stringify(name), "age=" + Stringify(age)]) + ")>",
      None, Action.Delete)]
    ensures user.session.removed == old(user.session.removed) + {user}
  {
    ReloadedUserText(user.dict, id, name, age);
    user.Reload([id, name, age]);
    user.Delete();
  }

  /**
   * After a reload from the row `(id, name, age)` a user whose dictionary held
   * only its columns renders those three values.
   */
  lemma ReloadedUserText(d: Store, id: Value, name: Value, age: Value)
    requires WellFormed(d) && forall k :: k in d.order ==> k in UserColumns
    ensures Render("User", Load(Expire(d, UserColumns), UserColumns, [id, name, age])) == "<User(" + Join(", ", [
      "id=" + Stringify(id), "name=" + Stringify(name), "age=" + Stringify(age)]) + ")>"
  {
    ReloadedUser(d, id, name, age);
    UserText(Store(UserColumns, map["id" := id, "name" := name, "age" := age]));
  }

  /**
   * Expiring and loading a user whose dictionary held only its columns leaves
   * exactly the row, in column order.
   */
  lemma ReloadedUser(d: Store, id: Value, name: Value, age: Value)
    requires WellFormed(d) && forall k :: k in d.order ==> k in UserColumns
    ensures Load(Expire(d, UserColumns), UserColumns, [id, name, age])
         == Store(UserColumns, map["id" := id, "name" := name, "age" := age])
  {
    var e0 := Expire(d, UserColumns);
    assert e0.order == [];
    assert e0.slots == map[];
    LoadUserRow(e0, id, name, age);
  }

  lemma LoadUserRow(e0: Store, id: Value, name: Value, age: Value)
    requires e0 == Store([], map[])
    ensures Load(e0, UserColumns, [id, name, age]) == Store(UserColumns, map["id" := id, "name" := name, "age" := age])
  {
    var e1 := Put(e0, "id", id);
    var e2 := Put(e1, "name", name);
    var e3 := Put(e2, "age", age);
    assert e3 == Store(["id", "name", "age"], map["id" := id, "name" := name, "age" := age]);
    assert UserColumns[1..] == ["name", "age"] && UserColumns[1..][1..] == ["age"] && UserColumns[1..][1..][1..] == [];
    assert Load(e0, UserColumns, [id, name, age]) == Load(e1, ["name", "age"], [name, age]);
    assert Load(e1, ["name", "age"], [name, age]) == Load(e2, ["age"], [age]);
    assert Load(e2, ["age"], [age]) == Load(e3, [], []);
  }

  /** How the driver's ages are logged. */
  lemma AgeTexts()
    ensures Stringify(IntV(20)) == "20" && Stringify(IntV(21)) == "21" && Stringify(IntV(5)) == "5"
  {
    assert NatToString(20) == NatToString(2) + [DigitChar(0)];
    assert NatToString(21) == NatToString(2) + [DigitChar(1)];
  }

  /**
   * The text of a user whose dictionary holds exactly its three columns, as
   * it does after a reload: `<User(id=…, name=…, age=…)>`.
   */
  lemma UserText(d: Store)
    requires d.order == ["id", "name", "age"]
    requires "id" in d.slots && "name" in d.slots && "age" in d.slots
    ensures Render("User", d) == "<User(" + Join(", ", [
      "id=" + Stringify(d.slots["id"]),
      "name=" + Stringify(d.slots["name"]),
      "age=" + Stringify(d.slots["age"])]) + ")>"
  {
    NotReserved("id");
    NotReserved("name");
    NotReserved("age");
    FieldTextsOfThree("id", "name", "age", d.slots);
    var x := Stringify(d.slots["id"]);
    var y := Stringify(d.slots["name"]);
    var z := Stringify(d.slots["age"]);
    assert "id" + "=" + x == "id=" + x;
    assert "name" + "=" + y == "name=" + y;
    assert "age" + "=" + z == "age=" + z;
    var inner := Join(", ", FieldTexts(d.order, d.slots));
    assert Render("User", d) == "<" + "User" + "(" + inner + ")>";
  }

  lemma FieldTextsOfThree(a: string, b: string, c: string, slots: map<string, Value>)
    requires a in slots && b in slots && c in slots
    requires !IsReserved(a) && !IsReserved(b) && !IsReserved(c)
    ensures FieldTexts([a, b, c], slots)
         == [a + "=" + Stringify(slots[a]), b + "=" + Stringify(slots[b]), c + "=" + Stringify(slots[c])]
  {
    assert [c][1..] == [];
    assert FieldTexts([c], slots) == [c + "=" + Stringify(slots[c])];
    assert [b, c][1..] == [c];
    assert FieldTexts([b, c], slots) == [b + "=" + Stringify(slots[b]), c + "=" + Stringify(slots[c])];
    assert [a, b, c][1..] == [b, c];
  }

  /**
   * The prior value is compared with None, so an unset field and a field
   * holding None are alike: None over None is an `insert`, and so is a value
   * over None.
   */
  method NoneOverNone() returns (log: seq<LogRecord>)
    ensures log == [
      LogRecord("user", "age", "None", None, Insert),
      LogRecord("user", "age", "None", None, Insert),
      LogRecord("user", "age", "5", None, Insert)]
  {
    var session := new Session();
    var user := new Entity(session, UserTable, "User", UserColumns);
    NotReserved("age");
    AgeTexts();
    var r := user.SetField("age", NoneV);
    assert user.dict == Store(["age"], map["age" := NoneV]);
    ghost var s1 := session.staged;
    assert s1 == [LogRecord("user", "age", "None", None, Insert)];
    r := user.SetField("age", NoneV);
    assert user.dict == Store(["age"], map["age" := NoneV]);
    ghost var s2 := session.staged;
    assert s2 == s1 + [LogRecord("user", "age", "None", None, Insert)];
    r := user.SetField("age", IntV(5));
    assert session.staged == s2 + [LogRecord("user", "age", "5", None, Insert)];
    log := session.staged;
  }

  /**
   * Setting the value a field already holds stages nothing; None over a value
   * is an `update` whose new value is the text `'None'`.
   */
  method NoneOverValue() returns (log: seq<LogRecord>, text: string)
    ensures log == [
      LogRecord("user", "age", "5", None, Insert),
      LogRecord("user", "age", "None", Some("5"), Update)]
    ensures text == "<User(age=None)>"
  {
    var session := new Session();
    var user := new Entity(session, UserTable, "User", UserColumns);
    NotReserved("age");
    AgeTexts();
    var r := user.SetField("age", IntV(5));
    assert user.dict == Store(["age"], map["age" := IntV(5)]);
    ghost var s1 := session.staged;
    assert s1 == [LogRecord("user", "age", "5", None, Insert)];
    r := user.SetField("age", IntV(5));
    assert user.dict == Store(["age"], map["age" := IntV(5)]);
    assert session.staged == s1;
    r := user.SetField("age", NoneV);
    assert user.dict == Store(["age"], map["age" := NoneV]);
    assert session.staged == s1 + [LogRecord("user", "age", "None", Some("5"), Update)];
    log := session.staged;
    AgeNoneText();
    text := user.Repr();
  }

  /**
   * A reserved name is never audited, yet the value is stored; reading it
   * through `__getattr__` fails, and it stays out of the text.
   */
  method ReservedName() returns (log: seq<LogRecord>, read: Result<Value, AttributeError>, text: string, stored: Store)
    ensures log == []
    ensures stored == Store(["_sa_instance_state"], map["_sa_instance_state" := StrV("state")])
    ensures read == Failure(AttributeError("_sa_instance_state"))
    ensures text == "<User()>"
  {
    var session := new Session();
    var user := new Entity(session, UserTable, "User", UserColumns);
    assert "_sa_instance_state"[..|ReservedPrefix|] == ReservedPrefix;
    var r := user.SetField("_sa_instance_state", StrV("state"));
    log := session.staged;
    read := user.GetField("_sa_instance_state");
    assert ["_sa_instance_state"][1..] == [];
    assert FieldTexts(user.dict.order, user.dict.slots) == [];
    text := user.Repr();
    stored := user.dict;
  }

  /**
   * The table guard, on a hypothetical `CustomBase` subclass `AuditedLog`
   * whose `__tablename__` is `'log'`: its writes are stored but never audited.
   * The program's own `Log` does not inherit from `CustomBase` at all.
   */
  method LogTableUnaudited() returns (log: seq<LogRecord>, stored: Store)
    ensures log == []
    ensures stored == Store(["value"], map["value" := StrV("x")])
  {
    var session := new Session();
    var entry := new Entity(session, LogTable, "AuditedLog", ["id", "value"]);
    var r := entry.SetField("value", StrV("x"));
    log := session.staged;
    stored := entry.dict;
  }

  /** The text of a dictionary holding one unreserved field. */
  lemma SingleFieldText(className: string, k: string, v: Value)
    requires |k| > 0 && k[0] != '_'
    ensures Render(className, Store([k], map[k := v])) == "<" + className + "(" + k + "=" + Stringify(v) + ")>"
  {
    NotReserved(k);
    assert [k][1..] == [];
    assert FieldTexts([k], map[k := v]) == [k + "=" + Stringify(v)];
  }

  /** The text of a user whose only field is `age`, holding None. */
  lemma AgeNoneText()
    ensures Render("User", Store(["age"], map["age" := NoneV])) == "<User(age=None)>"
  {
    SingleFieldText("User", "age", NoneV);
    assert "<" + "User" + "(" + "age" + "=" + Stringify(NoneV) + ")>" == "<User(age=None)>";
  }

  /**
   * A plain attribute that is not a column cannot be set on an audited entity:
   * reading its prior value raises, so nothing is stored or staged.
   */
  method AdHocAttribute() returns (out: Outcome<AttributeError>, log: seq<LogRecord>)
    ensures out == Fail(AttributeError("nickname"))
    ensures log == []
  {
    var session := new Session();
    var user := new Entity(session, UserTable, "User", UserColumns);
    NotReserved("nickname");
    assert "nickname" !in UserColumns;
    assert Audited(UserTable, "nickname");
    out := user.SetField("nickname", StrV("M"));
    log := session.staged;
  }
}
