/**
 * The auditing base class: every write to a tracked field is compared with the
 * field's prior value and staged as an `insert` or `update` log record (or not
 * at all), deletion stages a `delete` record carrying the entity's text, and
 * the entity renders itself as `<Class(k=v, ...)>`.
 */
module CustomBase {
  import opened Wrappers
  import opened Values
  import opened AuditLog

  /** Attribute names the ORM keeps for its own bookkeeping start with this. */
  const ReservedPrefix: string := "_sa_"

  /** The table name of the audit log itself; it is never audited. */
  const LogTable: string := "log"

  /** `name.startswith("_sa_")` */
  predicate IsReserved(name: string) {
    |ReservedPrefix| <= |name| && name[..|ReservedPrefix|] == ReservedPrefix
  }

  /** A name whose first character is not `_` is not reserved. */
  lemma NotReserved(name: string)
    requires |name| > 0 && name[0] != '_'
    ensures !IsReserved(name)
  {
    assert ReservedPrefix[0] == '_';
    assert |ReservedPrefix| <= |name| ==> name[..|ReservedPrefix|][0] == name[0];
  }

  /** Whether a write to `name` on an entity of `table` is audited at all. */
  predicate Audited(table: string, name: string) {
    !IsReserved(name) && table !in [LogTable]
  }

  /** The error raised for a name that cannot be read through the tracked path. */
  datatype AttributeError = AttributeError(name: string)

  /**
   * The instance's attribute dictionary: its keys in insertion order and the
   * value stored under each.
   */
  datatype Store = Store(order: seq<string>, slots: map<string, Value>)

  ghost predicate Distinct(s: seq<string>) {
    forall i, j :: 0 <= i < j < |s| ==> s[i] != s[j]
  }

  ghost predicate WellFormed(d: Store) {
    Distinct(d.order) && forall k :: k in d.slots <==> k in d.order
  }

  /**
   * Dictionary assignment `d[k] = v`: an existing key keeps its position, a
   * new key goes last, and no other entry changes.
   */
  function Put(d: Store, k: string, v: Value): (r: Store)
    ensures WellFormed(d) ==> WellFormed(r)
    ensures r.slots == d.slots[k := v]
    ensures k in d.slots ==> r.order == d.order
    ensures k !in d.slots ==> r.order == d.order + [k]
  {
    if k in d.slots then Store(d.order, d.slots[k := v]) else Store(d.order + [k], d.slots[k := v])
  }

  /** `', '.join(parts)` */
  function Join(sep: string, parts: seq<string>): string {
    if parts == [] then ""
    else if |parts| == 1 then parts[0]
    else parts[0] + sep + Join(sep, parts[1..])
  }

  /** The `k=v` text of every non-reserved key of `order`, in that order. */
  function FieldTexts(order: seq<string>, slots: map<string, Value>): seq<string>
    requires forall k :: k in order ==> k in slots
  {
    if order == [] then []
    else
      (if IsReserved(order[0]) then [] else [order[0] + "=" + Stringify(slots[order[0]])])
      + FieldTexts(order[1..], slots)
  }

  /** `__repr__`: `<ClassName(k1=v1, k2=v2, ...)>` over the non-reserved entries. */
  function Render(className: string, d: Store): (r: string)
    requires forall k :: k in d.order ==> k in d.slots
    ensures |r| >= |className| + 4
    ensures r[..|className| + 2] == "<" + className + "("
    ensures r[|r| - 2..] == ")>"
  {
    var inner := Join(", ", FieldTexts(d.order, d.slots));
    assert ("<" + className + "(" + inner + ")>")[..|className| + 2] == "<" + className + "(";
    "<" + className + "(" + inner + ")>"
  }

  /**
   * The records one audited write stages, given the field's prior value: an
   * `insert` when the prior value is None, an `update` carrying both texts when
   * it is another value, nothing when it is the same value.
   */
  function AuditRecords(table: string, name: string, prior: Value, value: Value): (r: seq<LogRecord>)
    ensures |r| == (if prior != NoneV && prior == value then 0 else 1)
    ensures |r| == 1 ==> r[0].table == table && r[0].column == name && r[0].value == Stringify(value)
    ensures |r| == 1 ==> (r[0].action == Insert <==> prior == NoneV)
    ensures |r| == 1 ==> (r[0].action == Update <==> prior != NoneV)
    ensures |r| == 1 ==> r[0].oldValue == (if prior == NoneV then None else Some(Stringify(prior)))
  {
    if prior != value && prior != NoneV then
      [LogRecord(table, name, Stringify(value), oldValue := Some(Stringify(prior)), action := Update)]
    else if prior == NoneV then
      [LogRecord(table, name, Stringify(value), action := Insert)]
    else
      []
  }

  /** The `delete` record for an entity whose text is `text`. */
  function DeleteRecord(table: string, text: string): (r: LogRecord)
    ensures r.table == table && r.column == "id" && r.value == text
    ensures r.oldValue == None && r.action == Delete
  {
    LogRecord(table, "id", text, action := Delete)
  }

  /** The keys of `order` that are not columns, in their order. */
  function WithoutColumns(order: seq<string>, columns: seq<string>): (r: seq<string>)
    ensures forall k :: k in r <==> k in order && k !in columns
    ensures Distinct(order) ==> Distinct(r)
    ensures (forall k :: k in order ==> k in columns) ==> r == []
  {
    if order == [] then []
    else (if order[0] in columns then [] else [order[0]]) + WithoutColumns(order[1..], columns)
  }

  /** Expiry on commit: every column entry leaves the dictionary; the rest stays. */
  function Expire(d: Store, columns: seq<string>): (r: Store)
    ensures WellFormed(d) ==> WellFormed(r)
    ensures forall k :: k in r.slots <==> k in d.slots && k !in columns
    ensures forall k :: k in r.slots ==> r.slots[k] == d.slots[k]
  {
    Store(WithoutColumns(d.order, columns), map k | k in d.slots && k !in columns :: d.slots[k])
  }

  /** Loading a row: each column in turn is assigned its value from the row. */
  function Load(d: Store, columns: seq<string>, row: seq<Value>): (r: Store)
    requires |row| == |columns|
    ensures WellFormed(d) ==> WellFormed(r)
    decreases columns
  {
    if columns == [] then d else Load(Put(d, columns[0], row[0]), columns[1..], row[1..])
  }

  /**
   * A tracked entity: its table, its class, its mapped columns in declaration
   * order, the session it stages into, and its attribute dictionary.
   */
  class Entity {
    const session: Session
    const table: string
    const className: string
    const columns: seq<string>
    var dict: Store

    ghost predicate Valid()
      reads this
    {
      WellFormed(dict) && Distinct(columns)
    }

    /**
     * A new, transient instance with an empty dictionary. The ORM's own write
     * of its reserved `_sa_instance_state` entry is not part of this model.
     */
    constructor (session: Session, table: string, className: string, columns: seq<string>)
      requires Distinct(columns)
      ensures Valid()
      ensures this.session == session && this.table == table && this.className == className
      ensures this.columns == columns && dict == Store([], map[])
    {
      this.session := session;
      this.table := table;
      this.className := className;
      this.columns := columns;
      dict := Store([], map[]);
    }

    /**
     * `__getattr__`: a reserved name raises; otherwise the stored value, where
     * a column that was never set reads as None and any other name raises.
     */
    function GetField(name: string): (r: Result<Value, AttributeError>)
      reads this
      ensures r.Failure? <==> IsReserved(name) || (name !in dict.slots && name !in columns)
      ensures r.Failure? ==> r.error == AttributeError(name)
      ensures r.Success? && name in dict.slots ==> r.value == dict.slots[name]
      ensures r.Success? && name !in dict.slots ==> r.value == NoneV
    {
      if IsReserved(name) then Failure(AttributeError(name))
      else if name in dict.slots then Success(dict.slots[name])
      else if name in columns then Success(NoneV)
      else Failure(AttributeError(name))
    }

    /** `__repr__` of this entity. */
    function Repr(): (r: string)
      reads this
      requires Valid()
      ensures |r| >= |className| + 4
      ensures r[..|className| + 2] == "<" + className + "(" && r[|r| - 2..] == ")>"
    {
      Render(className, dict)
    }

    /**
     * `__setattr__`: an audited write reads the prior value (an error there
     * propagates and nothing changes), stages what `AuditRecords` says, and
     * then, on every path that gets that far, stores the value.
     */
    method SetField(name: string, value: Value) returns (out: Outcome<AttributeError>)
      requires Valid()
      modifies this, session`staged
      ensures Valid()
      ensures out.Fail? <==> Audited(table, name) && old(GetField(name)).Failure?
      ensures out.Fail? ==> out.error == AttributeError(name)
      ensures out.Fail? ==> dict == old(dict) && session.staged == old(session.staged)
      ensures out.Pass? ==> dict == Put(old(dict), name, value)
      ensures out.Pass? && !Audited(table, name) ==> session.staged == old(session.staged)
      ensures out.Pass? && Audited(table, name) ==>
        session.staged == old(session.staged) + AuditRecords(table, name, old(GetField(name)).value, value)
      ensures out.Pass? && !IsReserved(name) ==> GetField(name) == Success(value)
      ensures forall n :: n != name ==> GetField(n) == old(GetField(n))
    {
      if !IsReserved(name) && table !in [LogTable] {
        var read := GetField(name);
        if read.Failure? {
          return Fail(read.error);
        }
        var prior := read.value;
        if prior != value && prior != NoneV {
          session.Add(LogRecord(table, name, Stringify(value), oldValue := Some(Stringify(prior)), action := Update));
        } else if prior == NoneV {
          session.Add(LogRecord(table, name, Stringify(value), action := Insert));
        }
      }
      dict := Put(dict, name, value);
      out := Pass;
    }

    /**
     * `delete`: stages the `delete` record with the entity's current text,
     * then asks the session to remove the entity.
     */
    method Delete()
      requires Valid()
      modifies session`staged, session`removed
      ensures session.staged == old(session.staged) + [DeleteRecord(table, Repr())]
      ensures session.removed == old(session.removed) + {this}
    {
      session.Add(LogRecord(table, "id", Repr(), action := Action.Delete));
      session.Remove(this);
    }

    /**
     * What the store does to a persistent instance on commit and the next
     * query: the column entries are dropped from the dictionary and loaded
     * again from the row, in column order, without going through `SetField`.
     */
    method Reload(row: seq<Value>)
      requires Valid()
      requires |row| == |columns|
      modifies this
      ensures Valid()
      ensures dict == Load(Expire(old(dict), columns), columns, row)
    {
      dict := Expire(dict, columns);
      ghost var expired := dict;
      var i := 0;
      while i < |columns|
        invariant 0 <= i <= |columns|
        invariant WellFormed(dict)
        invariant Load(expired, columns, row) == Load(dict, columns[i..], row[i..])
      {
        assert columns[i..][1..] == columns[i + 1..] && row[i..][1..] == row[i + 1..];
        dict := Put(dict, columns[i], row[i]);
        i := i + 1;
      }
    }
  }

  // ---- Lemmas about reloading ----

  /** Loading appends the columns, in order, after the keys already present. */
  lemma {:induction false} LoadOrder(d: Store, columns: seq<string>, row: seq<Value>)
    requires |row| == |columns| && Distinct(columns)
    requires forall k :: k in columns ==> k !in d.slots
    ensures Load(d, columns, row).order == d.order + columns
    decreases columns
  {
    if columns != [] {
      var d' := Put(d, columns[0], row[0]);
      LoadStep(d, columns, row);
      assert Load(d, columns, row) == Load(d', columns[1..], row[1..]);
      LoadOrder(d', columns[1..], row[1..]);
      assert d.order + [columns[0]] + columns[1..] == d.order + columns;
    }
  }

  /** One step of a load: the first column goes last, and the rest are still distinct and new. */
  lemma LoadStep(d: Store, columns: seq<string>, row: seq<Value>)
    requires |row| == |columns| && Distinct(columns) && columns != []
    requires forall k :: k in columns ==> k !in d.slots
    ensures Put(d, columns[0], row[0]).order == d.order + [columns[0]]
    ensures Distinct(columns[1..])
    ensures forall k :: k in columns[1..] ==> k !in Put(d, columns[0], row[0]).slots
  {
    var cs := columns[1..];
    forall k | k in cs ensures k !in Put(d, columns[0], row[0]).slots {
      var j :| 0 <= j < |cs| && cs[j] == k;
      assert columns[j + 1] == k;
    }
  }

  /** After loading, each column holds its value from the row. */
  lemma {:induction false} LoadColumns(d: Store, columns: seq<string>, row: seq<Value>, i: nat)
    requires |row| == |columns| && Distinct(columns) && i < |columns|
    ensures columns[i] in Load(d, columns, row).slots
    ensures Load(d, columns, row).slots[columns[i]] == row[i]
    decreases columns
  {
    var d' := Put(d, columns[0], row[0]);
    if i == 0 {
      if |columns| > 1 {
        LoadKeeps(d', columns[1..], row[1..], columns[0]);
      }
    } else {
      LoadColumns(d', columns[1..], row[1..], i - 1);
    }
  }

  /** Loading leaves every key that is not a column as it was. */
  lemma {:induction false} LoadKeeps(d: Store, columns: seq<string>, row: seq<Value>, k: string)
    requires |row| == |columns| && k in d.slots && k !in columns
    ensures k in Load(d, columns, row).slots && Load(d, columns, row).slots[k] == d.slots[k]
    decreases columns
  {
    if columns != [] {
      LoadKeeps(Put(d, columns[0], row[0]), columns[1..], row[1..], k);
    }
  }

  /**
   * After a reload the dictionary lists the surviving non-column keys, then
   * every column; each column holds the row's value, every other key its old one.
   */
  lemma ReloadSpec(d: Store, columns: seq<string>, row: seq<Value>)
    requires WellFormed(d) && |row| == |columns| && Distinct(columns)
    ensures Load(Expire(d, columns), columns, row).order == WithoutColumns(d.order, columns) + columns
    ensures forall i :: 0 <= i < |columns| ==> Load(Expire(d, columns), columns, row).slots[columns[i]] == row[i]
    ensures forall k :: k in d.slots && k !in columns ==> Load(Expire(d, columns), columns, row).slots[k] == d.slots[k]
  {
    var e := Expire(d, columns);
    LoadOrder(e, columns, row);
    forall i | 0 <= i < |columns| ensures Load(e, columns, row).slots[columns[i]] == row[i] {
      LoadColumns(e, columns, row, i);
    }
    forall k | k in d.slots && k !in columns ensures Load(e, columns, row).slots[k] == d.slots[k] {
      LoadKeeps(e, columns, row, k);
    }
  }

  // ---- Lemmas about the rendering ----

  /** The keys of `order` that `__repr__` shows: the non-reserved ones, in order. */
  function Visible(order: seq<string>): (r: seq<string>)
    ensures forall k :: k in r ==> k in order && !IsReserved(k)
    ensures forall k :: k in order && !IsReserved(k) ==> k in r
  {
    if order == [] then []
    else (if IsReserved(order[0]) then [] else [order[0]]) + Visible(order[1..])
  }

  /**
   * The comprehension inside `__repr__`: one `k=str(v)` per visible key, in
   * dictionary order, and nothing else.
   */
  lemma {:induction false} FieldTextsVisible(order: seq<string>, slots: map<string, Value>)
    requires forall k :: k in order ==> k in slots
    ensures |FieldTexts(order, slots)| == |Visible(order)|
    ensures forall i :: 0 <= i < |Visible(order)| ==>
      FieldTexts(order, slots)[i] == Visible(order)[i] + "=" + Stringify(slots[Visible(order)[i]])
  {
    if order != [] {
      FieldTextsVisible(order[1..], slots);
      var tail := FieldTexts(order[1..], slots);
      var vtail := Visible(order[1..]);
      if !IsReserved(order[0]) {
        var head := order[0] + "=" + Stringify(slots[order[0]]);
        assert FieldTexts(order, slots) == [head] + tail;
        assert Visible(order) == [order[0]] + vtail;
      } else {
        assert FieldTexts(order, slots) == [] + tail;
        assert Visible(order) == [] + vtail;
      }
    }
  }

  lemma {:induction false} FieldTextsAppend(order: seq<string>, slots: map<string, Value>, k: string)
    requires forall x :: x in order ==> x in slots
    requires k in slots
    ensures FieldTexts(order + [k], slots)
         == FieldTexts(order, slots) + (if IsReserved(k) then [] else [k + "=" + Stringify(slots[k])])
  {
    if order == [] {
      assert [k][1..] == [];
    } else {
      assert (order + [k])[1..] == order[1..] + [k];
      FieldTextsAppend(order[1..], slots, k);
    }
  }

  lemma {:induction false} FieldTextsUpdate(order: seq<string>, slots: map<string, Value>, k: string, v: Value)
    requires forall x :: x in order ==> x in slots
    requires IsReserved(k) || k !in order
    ensures FieldTexts(order, slots[k := v]) == FieldTexts(order, slots)
  {
    if order != [] {
      FieldTextsUpdate(order[1..], slots, k, v);
    }
  }

  /** Writing a reserved (`_sa_`) attribute never changes the entity's text. */
  lemma RenderIgnoresReserved(className: string, d: Store, k: string, v: Value)
    requires WellFormed(d) && IsReserved(k)
    ensures Render(className, Put(d, k, v)) == Render(className, d)
  {
    var e := Put(d, k, v);
    FieldTextsUpdate(d.order, d.slots, k, v);
    if k !in d.slots {
      FieldTextsAppend(d.order, e.slots, k);
      assert FieldTexts(e.order, e.slots) == FieldTexts(d.order, e.slots) + [];
    }
    assert FieldTexts(e.order, e.slots) == FieldTexts(d.order, d.slots);
  }

  /** A first write of a non-reserved attribute adds its `k=v` text last. */
  lemma RenderAppendsNewField(d: Store, k: string, v: Value)
    requires WellFormed(d) && !IsReserved(k) && k !in d.slots
    ensures FieldTexts(Put(d, k, v).order, Put(d, k, v).slots)
         == FieldTexts(d.order, d.slots) + [k + "=" + Stringify(v)]
  {
    FieldTextsUpdate(d.order, d.slots, k, v);
    FieldTextsAppend(d.order, d.slots[k := v], k);
  }

  /**
   * Re-writing a non-reserved attribute replaces its text where it stood; every
   * other text stays.
   */
  lemma FieldTextsReplace(order: seq<string>, slots: map<string, Value>, k: string, v: Value)
    requires forall x :: x in order ==> x in slots
    requires k in order && !IsReserved(k)
    ensures |FieldTexts(order, slots[k := v])| == |FieldTexts(order, slots)| == |Visible(order)|
    ensures k + "=" + Stringify(v) in FieldTexts(order, slots[k := v])
    ensures forall i :: 0 <= i < |FieldTexts(order, slots)| ==>
      FieldTexts(order, slots[k := v])[i] == if Visible(order)[i] == k then k + "=" + Stringify(v) else FieldTexts(order, slots)[i]
  {
    FieldTextsVisible(order, slots);
    FieldTextsVisible(order, slots[k := v]);
    assert k in Visible(order);
    var i :| 0 <= i < |Visible(order)| && Visible(order)[i] == k;
    assert FieldTexts(order, slots[k := v])[i] == k + "=" + Stringify(v);
  }
}
