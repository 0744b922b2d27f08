/**
 * The `Log` record (the audit table's row) and the unit of work that stages
 * records and removal requests until commit.
 */
module AuditLog {
  import opened Wrappers

  /** The `action` column's three values: `'insert'`, `'update'`, `'delete'`. */
  datatype Action = Insert | Update | Delete

  /**
   * One staged `Log` row. `old_value` defaults to None and `action` to
   * `'insert'`, as the column defaults declare. The surrogate `id` and the
   * `date_time` stamp are assigned by the store and the clock, not here.
   */
  datatype LogRecord = LogRecord(
    table: string,
    column: string,
    value: string,
    oldValue: Option<string> := None,
    action: Action := Insert)

  /**
   * The session: log records added to it (in order) and the objects whose
   * removal has been requested. Committing is the store's business.
   */
  class Session {
    var staged: seq<LogRecord>
    var removed: set<object>

    constructor ()
      ensures staged == [] && removed == {}
    {
      staged := [];
      removed := {};
    }

    /** `session.add(Log(...))`: the record joins the pending changes, last. */
    method Add(r: LogRecord)
      modifies this`staged
      ensures staged == old(staged) + [r]
    {
      staged := staged + [r];
    }

    /** `session.delete(obj)`: the object is marked for removal at commit. */
    method Remove(o: object)
      modifies this`removed
      ensures removed == old(removed) + {o}
    {
      removed := removed + {o};
    }
  }
}
