# Audited entities: a Dafny model

The repository defines a declarative base class, `CustomBase`, for ORM
entities whose field writes are audited. Every write to a tracked field is
intercepted. The field's prior value is read, and one `Log` row is staged in
the session, or none:

- `insert` when the prior value is None;
- `update` carrying the old and new texts when the prior value is another value;
- nothing when the prior value is not None and equals the new one.

The value is then assigned on every path. `delete()` stages a `delete` row
whose value is the entity's text `<Class(k=v, ...)>`, then asks the session to
remove the entity. Writes to names with the ORM's reserved prefix `_sa_`
bypass auditing, and so would every write to a `CustomBase` entity whose table
is `log`. The program's own `Log` class derives from the plain declarative base,
not from `CustomBase`, so its rows are never audited in the first place.

The model has five modules:

- `Wrappers`: the `Option`, `Result` and `Outcome` datatypes.
- `Values`: the field values (Python `None`, `int`, `str`) and Python's `str`
  on them. It proves that `int(str(i)) == i`, so the text an integer is logged
  as determines the integer.
- `AuditLog`: the `Log` record with its column defaults (`old_value` None,
  `action` `'insert'`), and the session as a class. The class holds the staged
  records in order and the set of entities marked for removal.
- `CustomBase`: one class, `Entity`, covering the table name, the class name,
  the mapped columns, and the instance dictionary as an ordered store (keys in
  insertion order, an existing key keeping its place). Its parts:
  - `SetField` (`__setattr__`) and `Delete` (`delete`) are methods that change
    the dictionary and the session;
  - `GetField` (`__getattr__`) and `Repr` (`__repr__`) are functions;
  - the audit decision itself is the pure function `AuditRecords`;
  - the text is the pure function `Render`.
- `Demo`: the `User` entity and the driver:
  `User(name='Max', age=20)`, commit, `age = 21`, commit, `delete()`. It proves
  that exactly four records are staged, in order. Further scenarios pin down
  the None sentinel, the unaudited paths and the ad-hoc attribute failure.

Three consequences of the code shape the model:

- The code compares the prior value with Python `None`, so an unset column and
  a column holding None are the same for the audit decision. None over None
  stages an `insert`. A value over None stages an `insert` again. None over a
  value stages an `update` whose value is the text `None`.
- Writing a reserved (`_sa_`) name raises nothing. The value is stored without
  a record (main.py:44, main.py:61). Only reading such a name through
  `__getattr__` raises `AttributeError`.
- On an audited entity, writing a name that is neither a mapped column nor
  already set raises `AttributeError`. The write reads the prior value first,
  that read raises, and nothing is stored or staged.

Between two transactions the ORM expires an instance and loads it again on the
next query. `Entity.Reload` stands in for that. It drops the column entries and
assigns each column from the row without auditing. It assumes the columns are
loaded in declaration order (see "Left out"). Under that assumption the
driver's `delete` record reads
`<User(id=<rowId>, name=Max, age=21)>`. The program keeps no reference to the
`User` it constructs, so the first query may build a fresh instance instead of
refreshing the old one. The model reloads the same instance. Because that
instance's dictionary holds only columns (the requires of `Demo.ReloadedUser`),
both readings give the same dictionary and the same four records.

## Model

| member | source | states |
|---|---|---|
| Values.NatToString | main.py:50-51 | the decimal text of a natural number is non-empty, all digits, and has no leading zero |
| Values.IntToString | main.py:50-51 | `str` on an int is non-empty and starts with `-` exactly when the int is negative |
| Values.ParseIntToString | main.py:50-51 | the text an int is logged as is a decimal literal, and `int` of it gives back the same int |
| Values.IntToStringInjective | main.py:50-51 | distinct ints are logged as distinct texts |
| AuditLog.Session.constructor | main.py:105 | a new session has nothing staged and nothing marked for removal |
| AuditLog.Session.Add | main.py:32-37 | `session.add` appends the record after every record already staged and changes nothing else |
| AuditLog.Session.Remove | main.py:38 | `session.delete` marks the object for removal and changes nothing else |
| CustomBase.NotReserved | main.py:44 | a name whose first character is not `_` does not start with `_sa_` |
| CustomBase.Put | main.py:61 | assignment stores the value under the key; an existing key keeps its position, a new key goes last; a well-formed dictionary (distinct keys, each with a value) stays well-formed |
| CustomBase.AuditRecords | main.py:46-60 | one audited write stages one record, unless the prior value is non-None and equal to the new one, in which case it stages none; the record's table, column and `str(value)`; `insert` with no old value exactly when the prior value is None; `update` with `str(prior)` exactly when it is not |
| CustomBase.DeleteRecord | main.py:32-37 | the delete record names the table, column `id`, the entity's text, no old value, action `delete` |
| CustomBase.Entity.constructor | main.py:85-89 | a new instance of a mapped class, before any write, has an empty dictionary and its class's table, name and columns |
| CustomBase.Entity.GetField | main.py:66-71 | reading fails with `AttributeError(name)` exactly when the name is reserved, or is neither set nor a column; otherwise it returns the stored value, and None for a column never set |
| CustomBase.Entity.SetField | main.py:43-61 | fails exactly when the write is audited and reading the prior value fails, and then changes nothing. Otherwise the dictionary is the old one with the value assigned. Unaudited writes stage nothing. Audited writes append exactly `AuditRecords` of the prior value. The field reads back as the new value. Every other name reads as before. |
| CustomBase.Entity.Delete | main.py:31-38 | appends exactly the delete record carrying the current text, and marks this entity removed |
| CustomBase.WithoutColumns | main.py:112 | keeps, without duplicates, exactly the keys that are not columns |
| CustomBase.Expire | main.py:112 | commit expiry drops exactly the column entries and keeps every other entry and its value |
| CustomBase.Load | main.py:115 | loading a row into a well-formed dictionary keeps it well-formed |
| CustomBase.Entity.Reload | main.py:112-115 | the dictionary after commit and query is the expired dictionary with the row loaded, and stays well-formed |
| CustomBase.LoadOrder | main.py:115 | loading appends the columns, in column order, after the keys already present |
| CustomBase.LoadStep | main.py:115 | one load step puts the first column last, and the remaining columns are still distinct and absent |
| CustomBase.LoadColumns | main.py:115 | after loading, each column holds its value from the row |
| CustomBase.LoadKeeps | main.py:115 | loading leaves every non-column key and its value untouched |
| CustomBase.ReloadSpec | main.py:112-115 | after a reload, the surviving non-column keys come first, then every column; each column holds the row's value, every other key its old one |
| CustomBase.Render | main.py:76-79 | the text starts with `<ClassName(` and ends with `)>`; what lies between is stated by `FieldTextsVisible` (one `k=str(v)` per non-reserved key, in dictionary order), `RenderIgnoresReserved`, `RenderAppendsNewField` and `FieldTextsReplace` |
| CustomBase.Entity.Repr | main.py:76-79 | `__repr__` of the entity is `Render` of its class name and dictionary: it starts with `<ClassName(` and ends with `)>`, with the field texts the `Render` lemmas state |
| CustomBase.Visible | main.py:78 | the keys `__repr__` shows are exactly the non-reserved keys of the dictionary |
| CustomBase.FieldTextsVisible | main.py:78 | the comprehension yields, in dictionary order, one `k=str(v)` per visible key and nothing else |
| CustomBase.FieldTextsAppend | main.py:78 | a key added last adds its `k=v` text last, unless it is reserved |
| CustomBase.FieldTextsUpdate | main.py:78 | changing a reserved key, or a key not in the dictionary, leaves the texts unchanged |
| CustomBase.RenderIgnoresReserved | main.py:76-79 | writing a reserved attribute never changes the entity's text |
| CustomBase.RenderAppendsNewField | main.py:76-79 | a first write of a non-reserved attribute appends its `k=v` text after all others |
| CustomBase.FieldTextsReplace | main.py:76-79 | re-writing a non-reserved attribute keeps the number of texts, puts the new `k=v` at every position where that key is shown, and leaves every other text as it was |
| Demo.NewUser | main.py:111 | `User(name=..., age=...)` assigns `name` then `age`: the dictionary holds both in that order, and two `insert` records are staged |
| Demo.Driver | main.py:111-122 | the driver stages exactly four records, in order: insert `name` `Max`, insert `age` `20`, update `age` from `20` to `21`, delete `id` with `<User(id=<rowId>, name=Max, age=21)>` |
| Demo.ReloadAndSetAge | main.py:115-116 | after the reload, `user.age = 21` stages exactly the records `AuditRecords` gives for the loaded age |
| Demo.ReloadAndDelete | main.py:120-121 | after the reload, `delete()` stages the record carrying the three reloaded fields, and marks the user removed |
| Demo.ReloadedUser | main.py:115 | a user whose keys are all columns reloads to exactly `id`, `name`, `age` in that order, holding the row |
| Demo.LoadUserRow | main.py:115 | loading a user row into an empty dictionary gives the row in column order |
| Demo.ReloadedUserText | main.py:120-121 | the text of a reloaded user is `<User(id=…, name=…, age=…)>` with the row's values |
| Demo.UserText | main.py:76-79 | the text of a user holding exactly its three columns |
| Demo.FieldTextsOfThree | main.py:78 | the comprehension over three visible keys |
| Demo.AgeTexts | main.py:50-51 | `str(20)`, `str(21)` and `str(5)` are `20`, `21` and `5` |
| Demo.SingleFieldText | main.py:76-79 | the text of a dictionary with one visible field |
| Demo.AgeNoneText | main.py:76-79 | a stored None renders as `age=None` |
| Demo.NoneOverNone | main.py:54-60 | None over an unset column, None over None, and a value over None each stage an `insert` |
| Demo.NoneOverValue | main.py:46-61 | re-writing the same value stages nothing, and None over a value stages an `update` with value `None`; the field then renders as `age=None` |
| Demo.ReservedName | main.py:44-71 | writing `_sa_instance_state` stages nothing but stores the value, reading it through `__getattr__` fails, and it stays out of the text |
| Demo.LogTableUnaudited | main.py:44 | on a hypothetical `CustomBase` subclass whose table is `log`, a write is stored but stages nothing |
| Demo.AdHocAttribute | main.py:45 | on an audited entity, writing a name that is neither a column nor set fails and stages nothing |

## Left out

- Engine creation, the connection pool, `metadata.bind`, `create_all` and session construction (main.py:98-108): library plumbing with no behaviour of this core. The session is a fresh `Session` object.
- `session.commit`, its atomicity and rollback, `query(...).filter_by(...).one_or_none()` and `session.close`: these belong to the ORM. Of commit and query, only their effect on the instance dictionary is modelled (`Entity.Reload`, with the row passed in).
- The surrogate `id` autoincrement and the `date_time` default `func.now()`: they are assigned by the store and the clock. The driver takes the row id as a parameter, and `LogRecord` has no `id` or `date_time`.
- The print loop over the log rows (main.py:125-127): output only.
- Python's dynamic attribute dispatch and the ORM's instrumented attributes: `GetField` and `SetField` are explicit calls. The ORM's way of making an unset column read as None is modelled by `GetField`'s column case.
- Class-level attributes that are not columns (methods, `__tablename__`): `GetField` sees only the instance dictionary and the mapped columns.
- Entity.Delete: `session.delete` raising for an instance that was never persisted is not modelled. The delete record being staged before the removal request shows only in the method's body order, because its contract states the final state of both fields.
- `str` on values other than None, `int` and `str`, such as dates and floats: the driver and the audited columns use only these three.
- The order in which the ORM loads a row's columns into the dictionary: main.py does not show it. `Entity.Reload` assumes declaration order (`id`, `name`, `age`), and the text in the driver's `delete` record depends on that assumption.
- The ORM's own write of `_sa_instance_state` when an instance is created, which goes through the reserved path of `__setattr__`: `Entity.constructor` starts from an empty dictionary. `RenderIgnoresReserved` shows that such a write would not change the text.

Values.Stringify, CustomBase.Join and CustomBase.FieldTexts are definitions: what is proved about them is stated by the lemmas above.
