/** Template variables as the backend stores and saves them: the saved
    rows, what a summary may show of them, and the save of a batch of
    changes (`_resolve_template_var_sets`, `_apply_template_var_changes`). */
module TemplateVars {
  import opened Common

  /** One saved variable. A password is a row with `isSecret`. */
  datatype Row = Row(value: string, isSecret: bool)

  type Table = map<string, Row>

  /** What the API shows of a row (its timestamps left out). */
  datatype Summary = Summary(name: string, isSecret: bool, value: Option<string>, hasValue: bool)

  function MakeSummary(name: string, row: Row): Summary {
    Summary(name, row.isSecret, if row.isSecret then None else Some(row.value), row.value != "")
  }

  /** `value.None?` keeps the saved value of `renameFrom`. */
  datatype SetSpec = SetSpec(value: Option<string>, isSecret: bool, renameFrom: Option<string>)

  datatype Changes = Changes(sets: map<string, SetSpec>, deletes: seq<string>)

  // ----- names -----

  predicate NameStart(c: char) {
    'A' <= c <= 'Z' || c == '_'
  }

  predicate NameChar(c: char) {
    NameStart(c) || '0' <= c <= '9'
  }

  /** `^[A-Z_][A-Z0-9_]*$` as JavaScript reads it. */
  predicate NameOk(s: string) {
    s != "" && NameStart(s[0]) && forall i :: 0 <= i < |s| ==> NameChar(s[i])
  }

  /** The same pattern as Python's `re` reads it: its `$` also matches
      before one trailing newline. */
  predicate BackendNameOk(s: string) {
    NameOk(s) || (s != "" && s[|s| - 1] == '\n' && NameOk(s[..|s| - 1]))
  }

  /** By character codes: capitals, digits but at the start, underscores. */
  lemma NameOkCodes(s: string)
    ensures NameOk(s) <==>
      && |s| >= 1 && !(48 <= s[0] as int <= 57)
      && forall i :: 0 <= i < |s| ==> 65 <= s[i] as int <= 90 || s[i] as int == 95 || 48 <= s[i] as int <= 57
  {
  }

  /** The backend takes such a name, and one with a newline after it. */
  lemma BackendNameIff(s: string)
    ensures BackendNameOk(s) <==> NameOk(s) || exists t :: NameOk(t) && s == t + "\n"
  {
    if s != "" && s[|s| - 1] == '\n' {
      assert s == s[..|s| - 1] + "\n";
    }
    forall t | NameOk(t) && s == t + "\n"
      ensures BackendNameOk(s)
    {
      assert s[..|s| - 1] == t;
    }
  }

  /** The names of the read-only system variables. */
  const SYSTEM_VARIABLES: set<string> := {"HOME"}

  // ----- the documented meaning of a save -----

  /** The row a kept value is read from (`rename_from or name`). */
  function SourceOf(name: string, spec: SetSpec): string {
    if spec.renameFrom.Some? && spec.renameFrom.value != "" then spec.renameFrom.value else name
  }

  /** The entry can be resolved against the rows saved before the save. */
  predicate KeepOk(saved: Table, c: Changes, name: string)
    requires name in c.sets
  {
    var spec := c.sets[name];
    spec.value.None? ==>
      var source := SourceOf(name, spec);
      BackendNameOk(source) && source in saved
      && (source == name || name !in saved || name in c.deletes)
  }

  ghost predicate KeepsOk(saved: Table, c: Changes) {
    forall name :: name in c.sets ==> KeepOk(saved, c, name)
  }

  /** The save is not refused. */
  ghost predicate Accepts(saved: Table, c: Changes) {
    && (forall name :: name in c.sets ==> BackendNameOk(name) && name !in SYSTEM_VARIABLES)
    && (forall name :: name in c.deletes ==> BackendNameOk(name))
    && KeepsOk(saved, c)
  }

  predicate FlushKeeps(saved: Table, c: Changes, name: string) {
    name in c.sets || (name in saved && name !in c.deletes)
  }

  /** One row after a save: deletes go first, a kept value and its flag
      come from the row saved before, a replace in place keeps the row's
      flag, and any other set is a new row. */
  ghost function FlushRow(saved: Table, c: Changes, name: string): Row
    requires KeepsOk(saved, c) && FlushKeeps(saved, c, name)
  {
    if name !in c.sets then saved[name]
    else
      var spec := c.sets[name];
      match spec.value
      case None => saved[SourceOf(name, spec)]
      case Some(v) =>
        Row(v, if name in saved && name !in c.deletes then saved[name].isSecret else spec.isSecret)
  }

  /** The rows after a save. */
  ghost function Flush(saved: Table, c: Changes): Table
    requires KeepsOk(saved, c)
  {
    map name | name in saved.Keys + c.sets.Keys && FlushKeeps(saved, c, name) :: FlushRow(saved, c, name)
  }

  // ----- the backend's save -----

  /** What one set entry writes, none when it keeps its own row. */
  ghost function ResolvedRow(saved: Table, c: Changes, name: string): Row
    requires name in c.sets && KeepOk(saved, c, name)
  {
    var spec := c.sets[name];
    match spec.value
    case Some(v) => Row(v, spec.isSecret)
    case None => saved[SourceOf(name, spec)]
  }

  predicate Written(c: Changes, name: string) {
    name in c.sets && (c.sets[name].value.Some? || SourceOf(name, c.sets[name]) != name)
  }

  /** `_resolve_template_var_sets`: every kept value is read before any
      write. None stands for the 400. The order of the entries is
      arbitrary. */
  method ResolveSets(saved: Table, c: Changes) returns (r: Option<map<string, Row>>)
    ensures r.Some? <==> KeepsOk(saved, c)
    ensures r.Some? ==> r.value.Keys == set name | name in c.sets && Written(c, name)
    ensures r.Some? ==> forall name :: name in r.value ==> r.value[name] == ResolvedRow(saved, c, name)
  {
    var resolved: map<string, Row> := map[];
    var todo := c.sets.Keys;
    while todo != {}
      invariant todo <= c.sets.Keys
      invariant forall name :: name in c.sets && name !in todo ==> KeepOk(saved, c, name)
      invariant resolved.Keys == set name | name in c.sets && name !in todo && Written(c, name)
      invariant forall name :: name in resolved ==> resolved[name] == ResolvedRow(saved, c, name)
    {
      var name :| name in todo;
      todo := todo - {name};
      var spec := c.sets[name];
      if spec.value.Some? {
        resolved := resolved[name := Row(spec.value.value, spec.isSecret)];
      } else {
        var source := SourceOf(name, spec);
        if !BackendNameOk(source) || source !in saved {
          return None;
        }
        if source != name {
          if name in saved && name !in c.deletes {
            return None;
          }
          resolved := resolved[name := saved[source]];
        }
      }
    }
    return Some(resolved);
  }

  /** What a write of `row` leaves: a row replaced in place keeps its flag. */
  function Stored(saved: Table, c: Changes, name: string, row: Row): Row {
    Row(row.value, if name in saved && name !in c.deletes then saved[name].isSecret else row.isSecret)
  }

  /** The repository: a replace keeps the row's `isSecret`. */
  class TemplateVarStore {
    var rows: Table

    constructor (rows: Table)
      ensures this.rows == rows
    {
      this.rows := rows;
    }

    method Set(name: string, value: string, isSecret: bool)
      modifies this
      ensures rows == old(rows)[name := Row(value, if name in old(rows) then old(rows)[name].isSecret else isSecret)]
    {
      var effective := if name in rows then rows[name].isSecret else isSecret;
      rows := rows[name := Row(value, effective)];
    }

    method Delete(name: string)
      modifies this
      ensures rows == old(rows) - {name}
    {
      if name in rows {
        rows := rows - {name};
      }
    }

    /** The writes of a save: a deleted name is deleted right before its
        own write, so its row is created fresh. */
    method WriteResolved(c: Changes, resolved: map<string, Row>)
      modifies this
      ensures forall name :: name in resolved ==> name in rows && rows[name] == Stored(old(rows), c, name, resolved[name])
      ensures forall name :: name !in resolved ==>
        (name in rows <==> name in old(rows)) && (name in rows ==> rows[name] == old(rows)[name])
    {
      var todo := resolved.Keys;
      while todo != {}
        invariant todo <= resolved.Keys
        invariant forall name :: name in resolved && name !in todo ==>
          name in rows && rows[name] == Stored(old(rows), c, name, resolved[name])
        invariant forall name :: name !in resolved || name in todo ==>
          (name in rows <==> name in old(rows)) && (name in rows ==> rows[name] == old(rows)[name])
      {
        var name :| name in todo;
        todo := todo - {name};
        if name in c.deletes {
          Delete(name);
        }
        Set(name, resolved[name].value, resolved[name].isSecret);
      }
    }

    method DeleteAll(names: set<string>)
      modifies this
      ensures rows == old(rows) - names
    {
      var todo := names;
      while todo != {}
        invariant todo <= names
        invariant rows == old(rows) - (names - todo)
      {
        var name :| name in todo;
        todo := todo - {name};
        Delete(name);
      }
    }

    /** `_apply_template_var_changes`: rows the save only deletes go last. */
    method ApplyChanges(c: Changes, resolved: map<string, Row>)
      requires KeepsOk(rows, c)
      requires resolved.Keys == set name | name in c.sets && Written(c, name)
      requires forall name :: name in resolved ==> resolved[name] == ResolvedRow(rows, c, name)
      modifies this
      ensures rows == Flush(old(rows), c)
    {
      WriteResolved(c, resolved);
      DeleteAll((set name | name in c.deletes) - c.sets.Keys);
      forall name
        ensures name in rows <==> name in Flush(old(rows), c)
        ensures name in rows ==> rows[name] == Flush(old(rows), c)[name]
      {
        if name in c.sets {
          assert KeepOk(old(rows), c, name);
        }
      }
    }

    /** The save of the settings: checked first, then written. */
    method SaveChanges(c: Changes) returns (ok: bool)
      modifies this
      ensures ok <==> Accepts(old(rows), c)
      ensures ok ==> rows == Flush(old(rows), c)
      ensures !ok ==> rows == old(rows)
    {
      if exists name :: name in c.sets.Keys && (!BackendNameOk(name) || name in SYSTEM_VARIABLES) {
        return false;
      }
      if exists name :: name in c.deletes && !BackendNameOk(name) {
        return false;
      }
      var resolved := ResolveSets(rows, c);
      if resolved.None? {
        return false;
      }
      ApplyChanges(c, resolved.value);
      return true;
    }
  }
}
