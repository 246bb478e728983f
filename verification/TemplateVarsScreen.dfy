/** The manager's state: the list it shows and the handlers that change
    its buffers in place. */
module TemplateVarsScreen {
  import opened Common
  import opened TemplateVars
  import opened TemplateVarsManager

  // ----- lists of rows, one per name -----

  /** `rows` holds exactly the entries of `t`, each once. */
  ghost predicate Lists(rows: seq<Summary>, t: map<string, Summary>) {
    && DistinctNames(rows)
    && (forall r :: r in rows ==> r.name in t && t[r.name] == r)
    && (forall n :: n in t ==> t[n] in rows && t[n].name == n)
  }

  /** What the list of a table looks like, passwords masked. */
  ghost function Masked(t: Table): map<string, Summary> {
    map n | n in t :: MakeSummary(n, t[n])
  }

  /** A row shows the name, the flag, whether there is a value, and the
      value unless it is a password. */
  ghost predicate RowShows(r: Summary, row: Row) {
    && r.isSecret == row.isSecret && (r.hasValue <==> row.value != "")
    && (row.isSecret ==> r.value.None?) && (!row.isSecret ==> r.value == Some(row.value))
  }

  /** One row for each variable of the table. */
  ghost predicate Shows(rows: seq<Summary>, t: Table) {
    && DistinctNames(rows)
    && (forall r :: r in rows ==> r.name in t && RowShows(r, t[r.name]))
    && (forall n :: n in t ==> exists r :: r in rows && r.name == n)
  }

  lemma ListsShow(rows: seq<Summary>, t: Table)
    requires Lists(rows, Masked(t))
    ensures Shows(rows, t)
  {
    forall n | n in t
      ensures exists r :: r in rows && r.name == n
    {
      assert Masked(t)[n] in rows;
    }
  }

  /** The comparison the list is sorted with. */
  ghost predicate TotalOrder(leq: (string, string) -> bool) {
    && (forall a, b :: leq(a, b) || leq(b, a))
    && (forall a, b, c :: leq(a, b) && leq(b, c) ==> leq(a, c))
  }

  ghost predicate SortedByName(rows: seq<Summary>, leq: (string, string) -> bool) {
    forall i, j :: 0 <= i < j < |rows| ==> leq(rows[i].name, rows[j].name)
  }

  function InsertByName(rows: seq<Summary>, r: Summary, leq: (string, string) -> bool): seq<Summary> {
    if rows == [] || leq(r.name, rows[0].name) then [r] + rows
    else [rows[0]] + InsertByName(rows[1..], r, leq)
  }

  /** `result.sort` by name. */
  function SortByName(rows: seq<Summary>, leq: (string, string) -> bool): seq<Summary> {
    if rows == [] then [] else InsertByName(SortByName(rows[1..], leq), rows[0], leq)
  }

  ghost predicate DistinctNames(rows: seq<Summary>) {
    forall i, j :: 0 <= i < j < |rows| ==> rows[i].name != rows[j].name
  }

  lemma {:induction false} InsertKeepsOrder(rows: seq<Summary>, r: Summary, leq: (string, string) -> bool)
    requires TotalOrder(leq) && SortedByName(rows, leq) && DistinctNames(rows)
    requires forall x :: x in rows ==> x.name != r.name
    ensures forall x :: x in InsertByName(rows, r, leq) <==> x in rows || x == r
    ensures SortedByName(InsertByName(rows, r, leq), leq) && DistinctNames(InsertByName(rows, r, leq))
  {
    if rows == [] || leq(r.name, rows[0].name) {
    } else {
      InsertKeepsOrder(rows[1..], r, leq);
      var ins := InsertByName(rows[1..], r, leq);
      assert forall x :: x in ins ==> leq(rows[0].name, x.name) && rows[0].name != x.name;
      assert forall i :: 0 <= i < |ins| ==> ins[i] in ins;
    }
  }

  /** Sorting changes the order of the rows only. */
  lemma {:induction false} SortKeepsRows(rows: seq<Summary>, leq: (string, string) -> bool)
    requires TotalOrder(leq) && DistinctNames(rows)
    ensures forall x :: x in SortByName(rows, leq) <==> x in rows
    ensures SortedByName(SortByName(rows, leq), leq) && DistinctNames(SortByName(rows, leq))
  {
    if rows == [] {
    } else {
      SortKeepsRows(rows[1..], leq);
      InsertKeepsOrder(SortByName(rows[1..], leq), rows[0], leq);
    }
  }

  lemma ListsAppend(rows: seq<Summary>, t: map<string, Summary>, r: Summary)
    requires Lists(rows, t) && r.name !in t
    ensures Lists(rows + [r], t[r.name := r])
  {
  }

  // ----- the deferred list -----

  /** The server list by name. */
  function ByName(server: seq<Summary>): map<string, Summary> {
    if server == [] then map[]
    else ByName(server[..|server| - 1])[server[|server| - 1].name := server[|server| - 1]]
  }

  lemma {:induction false} ByNameLists(server: seq<Summary>)
    requires DistinctNames(server)
    ensures Lists(server, ByName(server))
  {
    if server == [] {
    } else {
      var last := |server| - 1;
      assert server == server[..last] + [server[last]];
      ByNameLists(server[..last]);
      ListsAppend(server[..last], ByName(server[..last]), server[last]);
    }
  }

  lemma ByNameStep(server: seq<Summary>, i: nat)
    requires i < |server| && DistinctNames(server)
    ensures server[i].name !in ByName(server[..i])
    ensures ByName(server[..i + 1]) == ByName(server[..i])[server[i].name := server[i]]
  {
    ByNameLists(server[..i]);
    assert server[..i + 1][..i] == server[..i];
  }

  /** A server row with a pending value shown in place. */
  function Overlaid(s: Summary, spec: SetSpec): Summary {
    s.(value := if s.isSecret then None else if spec.value.Some? then spec.value else s.value,
       hasValue := if spec.value.None? then s.hasValue else spec.value.value != "")
  }

  /** A pending set shown as a new row. A kept value shows its source's
      row, or an empty one when the source is gone. */
  function NewRow(server: map<string, Summary>, name: string, spec: SetSpec): Summary {
    match spec.value
    case Some(v) => MakeSummary(name, Row(v, spec.isSecret))
    case None =>
      var source := if spec.renameFrom.Some? then spec.renameFrom.value else name;
      if source in server then server[source].(name := name)
      else MakeSummary(name, Row("", spec.isSecret))
  }

  /** A rename whose source is gone is shown as an empty row. */
  lemma GoneSourceShown(server: map<string, Summary>, name: string, spec: SetSpec)
    requires spec.value.None? && name !in server && (spec.renameFrom.Some? ==> spec.renameFrom.value !in server)
    ensures NewRow(server, name, spec).name == name && RowShows(NewRow(server, name, spec), Row("", spec.isSecret))
  {
  }

  ghost predicate Shown(server: map<string, Summary>, c: Changes, n: string) {
    n in c.sets || (n in server && n !in c.deletes)
  }

  ghost function MergedRow(server: map<string, Summary>, c: Changes, n: string): Summary
    requires Shown(server, c, n)
  {
    if n !in c.sets then server[n]
    else if n in server && n !in c.deletes then Overlaid(server[n], c.sets[n])
    else NewRow(server, n, c.sets[n])
  }

  /** The rows shown for a buffer over a server list. */
  ghost function MergedRows(server: map<string, Summary>, c: Changes): map<string, Summary> {
    map n | n in server.Keys + c.sets.Keys && Shown(server, c, n) :: MergedRow(server, c, n)
  }

  lemma MergedRowMasks(saved: Table, c: Changes, n: string)
    requires KeepsOk(saved, c) && FlushKeeps(saved, c, n) && "" !in saved
    requires Kept(c, n) ==> KeptOk(saved, c, n)
    ensures MergedRow(Masked(saved), c, n) == MakeSummary(n, FlushRow(saved, c, n))
  {
  }

  lemma MaskFlush(saved: Table, c: Changes)
    requires KeepsOk(saved, c) && "" !in saved
    requires forall n :: Kept(c, n) ==> KeptOk(saved, c, n)
    ensures MergedRows(Masked(saved), c) == Masked(Flush(saved, c))
  {
    var shown, flushed := MergedRows(Masked(saved), c), Masked(Flush(saved, c));
    forall n
      ensures n in shown <==> n in flushed
      ensures n in shown ==> shown[n] == flushed[n]
    {
      assert Shown(Masked(saved), c, n) <==> FlushKeeps(saved, c, n);
      if FlushKeeps(saved, c, n) {
        MergedRowMasks(saved, c, n);
      }
    }
  }

  /** The list shown is the flush, passwords masked. */
  lemma MergedRowsMaskFlush(saved: Table, c: Changes)
    requires BufferOk(saved, c)
    ensures KeepsOk(saved, c) && MergedRows(Masked(saved), c) == Masked(Flush(saved, c))
    ensures MergedRows(Masked(saved), c).Keys == Flush(saved, c).Keys
    ensures forall n :: n in Flush(saved, c) ==>
      MergedRows(Masked(saved), c)[n].name == n && RowShows(MergedRows(Masked(saved), c)[n], Flush(saved, c)[n])
  {
    BufferAccepted(saved, c);
    MaskFlush(saved, c);
  }

  ghost function ServerRows(server: map<string, Summary>, c: Changes): map<string, Summary> {
    map n | n in server && n !in c.deletes :: MergedRow(server, c, n)
  }

  lemma ServerRowsAppend(t: map<string, Summary>, c: Changes, s: Summary)
    requires s.name !in t
    ensures s.name in c.deletes ==> ServerRows(t[s.name := s], c) == ServerRows(t, c)
    ensures s.name !in c.deletes ==>
      var row := if s.name in c.sets then Overlaid(s, c.sets[s.name]) else s;
      ServerRows(t[s.name := s], c) == ServerRows(t, c)[s.name := row]
  {
  }

  /** The first loop: live server rows, with the pending values on top. */
  method OverlayServerRows(server: seq<Summary>, pending: Changes) returns (result: seq<Summary>)
    requires DistinctNames(server)
    ensures Lists(result, ServerRows(ByName(server), pending))
  {
    var deleteSet := set n | n in pending.deletes;
    result := [];
    for i := 0 to |server|
      invariant Lists(result, ServerRows(ByName(server[..i]), pending))
    {
      var s := server[i];
      ghost var t := ByName(server[..i]);
      ByNameStep(server, i);
      ServerRowsAppend(t, pending, s);
      if s.name in deleteSet {
        continue;
      }
      var row := if s.name !in pending.sets then s else Overlaid(s, pending.sets[s.name]);
      ListsAppend(result, ServerRows(t, pending), row);
      result := result + [row];
    }
    assert server[..|server|] == server;
  }

  /** What is listed once the sets outside `todo` are. */
  ghost function RowsDone(server: map<string, Summary>, c: Changes, todo: set<string>): map<string, Summary> {
    map n | n in server.Keys + c.sets.Keys && Shown(server, c, n) && ((n in server && n !in c.deletes) || n !in todo) ::
      MergedRow(server, c, n)
  }

  lemma RowsDoneStep(server: map<string, Summary>, c: Changes, todo: set<string>, n: string)
    requires n in todo && n in c.sets
    ensures n in server && n !in c.deletes ==> RowsDone(server, c, todo - {n}) == RowsDone(server, c, todo)
    ensures !(n in server && n !in c.deletes) ==>
      n !in RowsDone(server, c, todo) && RowsDone(server, c, todo - {n}) == RowsDone(server, c, todo)[n := NewRow(server, n, c.sets[n])]
  {
  }

  lemma NewRowName(server: map<string, Summary>, n: string, spec: SetSpec)
    ensures NewRow(server, n, spec).name == n
  {
  }

  /** The second loop: every pending set that is not on a live server row. */
  method AppendNewRows(rows: seq<Summary>, server: map<string, Summary>, pending: Changes)
    returns (result: seq<Summary>)
    requires Lists(rows, ServerRows(server, pending))
    ensures Lists(result, MergedRows(server, pending))
  {
    var deleteSet := set n | n in pending.deletes;
    result := rows;
    var todo := pending.sets.Keys;
    assert RowsDone(server, pending, todo) == ServerRows(server, pending);
    while todo != {}
      invariant todo <= pending.sets.Keys
      invariant Lists(result, RowsDone(server, pending, todo))
    {
      var name :| name in todo;
      RowsDoneStep(server, pending, todo, name);
      if !(name in server && name !in deleteSet) {
        var row := NewRow(server, name, pending.sets[name]);
        NewRowName(server, name, pending.sets[name]);
        ListsAppend(result, RowsDone(server, pending, todo), row);
        result := result + [row];
      }
      todo := todo - {name};
    }
    assert RowsDone(server, pending, {}) == MergedRows(server, pending);
  }

  /** `mergePendingWithServer` */
  method MergePendingWithServer(server: seq<Summary>, pending: Changes, leq: (string, string) -> bool)
    returns (result: seq<Summary>)
    requires TotalOrder(leq) && DistinctNames(server)
    ensures SortedByName(result, leq)
    ensures Lists(result, MergedRows(ByName(server), pending))
  {
    result := OverlayServerRows(server, pending);
    result := AppendNewRows(result, ByName(server), pending);
    SortKeepsRows(result, leq);
    result := SortByName(result, leq);
  }

  /** The changes a Save queues, once it is neither refused nor empty. */
  method QueueSave(pending: Changes, m: Modal, oldOnServer: bool, ghost savedNames: set<string>)
    returns (next: Changes)
    requires !Refused(Displayed(savedNames, pending), m)
    requires !(m.KeepValue() && m.originalName !in pending.sets && !m.IsRename())
    requires oldOnServer <==> m.originalName in savedNames
    ensures next == SaveStep(savedNames, pending, m)
  {
    var prior := if m.originalName in pending.sets then Some(pending.sets[m.originalName]) else None;
    var nextSets, nextDeletes := pending.sets, pending.deletes;
    if m.IsRename() {
      nextSets := nextSets - {m.originalName};
      if oldOnServer && m.originalName !in nextDeletes {
        nextDeletes := nextDeletes + [m.originalName];
      }
    }
    if !m.KeepValue() {
      nextSets := nextSets[m.name := SetSpec(Some(m.TypedValue()), m.EffectiveIsSecret(), None)];
    } else if prior.Some? && prior.value.value.Some? {
      nextSets := nextSets[m.name := prior.value.(isSecret := m.EffectiveIsSecret())];
    } else {
      var source := if prior.Some? && prior.value.renameFrom.Some? then prior.value.renameFrom.value else m.originalName;
      if source == m.name {
        // renamed back to the saved row itself: queue nothing for it
        return Restore(Changes(nextSets, nextDeletes), m.name);
      }
      nextSets := nextSets[m.name := SetSpec(None, m.EffectiveIsSecret(), Some(source))];
    }
    return Changes(nextSets, nextDeletes);
  }

  /** Deferred mode: edits land in the parent's buffer of changes. */
  class DeferredManager {
    ghost const saved: Table  // what the backend holds, passwords included
    const serverList: seq<Summary>
    const leq: (string, string) -> bool
    var pendingChanges: Changes

    ghost predicate Valid()
      reads this
    {
      && TotalOrder(leq) && DistinctNames(serverList) && ByName(serverList) == Masked(saved)
      && BufferOk(saved, pendingChanges) && KeepsOk(saved, pendingChanges)
    }

    /** The table the user is editing: what a Save of the settings leaves. */
    ghost function Edited(): Table
      requires Valid()
      reads this
    {
      Flush(saved, pendingChanges)
    }

    constructor (ghost saved: Table, serverList: seq<Summary>, leq: (string, string) -> bool)
      requires TotalOrder(leq) && DistinctNames(serverList) && ByName(serverList) == Masked(saved) && SavedOk(saved)
      ensures Valid() && this.saved == saved && Edited() == saved
    {
      this.saved, this.serverList, this.leq := saved, serverList, leq;
      pendingChanges := Changes(map[], []);
      new;
      EmptyBufferOk(saved);
    }

    /** The list shown: one row per variable of the edited table, sorted,
        passwords masked. */
    method EnvVars() returns (rows: seq<Summary>)
      requires Valid()
      ensures SortedByName(rows, leq) && Lists(rows, Masked(Edited())) && Shows(rows, Edited())
    {
      MergedRowsMaskFlush(saved, pendingChanges);
      rows := MergePendingWithServer(serverList, pendingChanges, leq);
      ListsShow(rows, Edited());
    }

    method ExistingNames() returns (names: set<string>)
      requires Valid()
      ensures names == Edited().Keys
    {
      var rows := EnvVars();
      forall n | n in Edited()
        ensures exists r :: r in rows && r.name == n
      {
        assert Masked(Edited())[n] in rows;
      }
      names := set r | r in rows :: r.name;
    }

    method OnServer(name: string) returns (found: bool)
      requires Valid()
      ensures found <==> name in saved
    {
      ByNameLists(serverList);
      found := exists s :: s in serverList && s.name == name;
      if name in saved {
        assert Masked(saved)[name] in serverList;
      }
    }

    /** `handleSave`, deferred branch. `error` is the modal's error line. */
    method HandleSave(m: Modal) returns (error: bool)
      requires Valid() && OpenOn(Edited(), m)
      modifies this`pendingChanges
      ensures Valid()
      ensures error <==> Refused(old(Edited()).Keys, m)
      ensures pendingChanges == SaveStep(saved.Keys, old(pendingChanges), m)
      ensures Edited() == DirectSave(old(Edited()), m)
      ensures error <==> !Accepted(old(Edited()), m)
      ensures error ==> pendingChanges == old(pendingChanges)
      ensures !error ==> SavedAs(old(Edited()), m, Edited())
    {
      SaveRefines(saved, pendingChanges, m);
      DirectSaveMeans(Edited(), m);
      assert Edited().Keys == Displayed(saved.Keys, pendingChanges) by {
        BufferAccepted(saved, pendingChanges);
      }
      var existingNames := ExistingNames();
      error := Refused(existingNames, m);
      if error {
        return;
      }
      if m.KeepValue() && m.originalName !in pendingChanges.sets && !m.IsRename() {
        return;
      }
      var oldOnServer := OnServer(m.originalName);
      pendingChanges := QueueSave(pendingChanges, m, oldOnServer, saved.Keys);
    }

    /** `handleDelete`, deferred branch. */
    method HandleDelete(name: string)
      requires Valid()
      modifies this`pendingChanges
      ensures Valid()
      ensures pendingChanges == DeleteStep(saved.Keys, old(pendingChanges), name)
      ensures Edited() == old(Edited()) - {name}
    {
      DeleteRefines(saved, pendingChanges, name);
      var onServer := OnServer(name);
      var nextSets := pendingChanges.sets - {name};
      var nextDeletes :=
        if onServer && name !in pendingChanges.deletes then pendingChanges.deletes + [name] else pendingChanges.deletes;
      pendingChanges := Changes(nextSets, nextDeletes);
    }

    /** Any run of edits: the table being edited is the same run made on it
        directly. */
    method Run(edits: seq<Edit>)
      requires Valid() && CanRun(Edited(), edits)
      modifies this`pendingChanges
      ensures Valid() && Edited() == DirectRun(old(Edited()), edits)
    {
      for i := 0 to |edits|
        invariant Valid() && CanRun(Edited(), edits[i..])
        invariant DirectRun(Edited(), edits[i..]) == DirectRun(old(Edited()), edits)
      {
        assert edits[i..][1..] == edits[i + 1..];
        match edits[i] {
          case Save(m) =>
            var error := HandleSave(m);
          case Delete(name) =>
            HandleDelete(name);
        }
      }
    }
  }

  function NotNamed(name: string): Summary -> bool {
    (s: Summary) => s.name != name
  }

  function WithoutName(rows: seq<Summary>, name: string): seq<Summary> {
    Filter(rows, NotNamed(name))
  }

  lemma {:induction false} FilterDistinct(rows: seq<Summary>, name: string)
    requires DistinctNames(rows)
    ensures DistinctNames(WithoutName(rows, name))
  {
    if rows == [] {
    } else {
      FilterDistinct(rows[1..], name);
      FilterIn(rows[1..], NotNamed(name));
      var rest := WithoutName(rows[1..], name);
      assert forall i :: 0 <= i < |rest| ==> rest[i] in rest;
    }
  }

  lemma WithoutNameLists(rows: seq<Summary>, t: map<string, Summary>, name: string)
    requires Lists(rows, t)
    ensures Lists(WithoutName(rows, name), t - {name})
  {
    FilterDistinct(rows, name);
    FilterIn(rows, NotNamed(name));
  }

  lemma DirectSaveRow(t: Table, m: Modal)
    requires OpenOn(t, m) && !Refused(t.Keys, m)
    ensures DirectSave(t, m) == (if m.IsRename() then t - {m.originalName} else t)[m.name :=
      Row(if m.KeepValue() then t[m.originalName].value else m.TypedValue(), m.EffectiveIsSecret())]
  {
  }

  lemma MaskedWithout(t: Table, name: string)
    ensures Masked(t - {name}) == Masked(t) - {name}
  {
  }

  lemma MaskedWith(t: Table, name: string, row: Row)
    ensures Masked(t[name := row]) == (Masked(t) - {name})[name := MakeSummary(name, row)]
  {
  }

  /** The list update of a buffered Save. */
  method ListSave(prev: seq<Summary>, ghost t: Table, m: Modal, spec: Row, leq: (string, string) -> bool)
    returns (rows: seq<Summary>)
    requires TotalOrder(leq) && Lists(prev, Masked(t))
    ensures Lists(rows, Masked((if m.IsRename() then t - {m.originalName} else t)[m.name := spec]))
  {
    ghost var next := t;
    rows := prev;
    if m.IsRename() {
      WithoutNameLists(rows, Masked(next), m.originalName);
      MaskedWithout(next, m.originalName);
      rows, next := WithoutName(rows, m.originalName), next - {m.originalName};
    }
    rows := ReplaceRow(rows, next, m.name, spec);
    SortKeepsRows(rows, leq);
    rows := SortByName(rows, leq);
  }

  method ReplaceRow(prev: seq<Summary>, ghost t: Table, name: string, spec: Row) returns (rows: seq<Summary>)
    requires Lists(prev, Masked(t))
    ensures Lists(rows, Masked(t[name := spec]))
  {
    WithoutNameLists(prev, Masked(t), name);
    rows := WithoutName(prev, name);
    ListsAppend(rows, Masked(t) - {name}, MakeSummary(name, spec));
    MaskedWith(t, name, spec);
    rows := rows + [MakeSummary(name, spec)];
  }

  /** Buffered mode: the create wizard's local map and its list. */
  class BufferedManager {
    const leq: (string, string) -> bool
    var buffer: Table
    var bufferedList: seq<Summary>

    /** The list holds one matching row per variable of the buffer. */
    ghost predicate Valid()
      reads this
    {
      TotalOrder(leq) && Lists(bufferedList, Masked(buffer)) && Shows(bufferedList, buffer)
    }

    constructor (initial: Table, leq: (string, string) -> bool)
      requires TotalOrder(leq)
      ensures Valid() && buffer == initial
    {
      this.leq, buffer := leq, initial;
      var rows: seq<Summary> := [];
      var todo := initial.Keys;
      ghost var done: map<string, Summary> := map[];
      while todo != {}
        invariant todo <= initial.Keys
        invariant Lists(rows, done) && done == Masked(initial - todo)
      {
        var name :| name in todo;
        todo := todo - {name};
        var row := MakeSummary(name, initial[name]);
        ListsAppend(rows, done, row);
        rows, done := rows + [row], done[name := row];
      }
      assert initial - {} == initial;
      ListsShow(rows, initial);
      bufferedList := rows;
    }

    method ExistingNames() returns (names: set<string>)
      requires Valid()
      ensures names == buffer.Keys
    {
      forall n | n in buffer
        ensures exists r :: r in bufferedList && r.name == n
      {
        assert Masked(buffer)[n] in bufferedList;
      }
      names := set r | r in bufferedList :: r.name;
    }

    /** `handleSave`, buffered branch: the "No value found" error cannot
        happen. */
    method HandleSave(m: Modal) returns (error: bool)
      requires Valid() && OpenOn(buffer, m)
      modifies this
      ensures Valid()
      ensures error <==> Refused(old(buffer).Keys, m)
      ensures buffer == DirectSave(old(buffer), m)
      ensures error <==> !Accepted(old(buffer), m)
      ensures error ==> buffer == old(buffer) && bufferedList == old(bufferedList)
      ensures !error ==> SavedAs(old(buffer), m, buffer)
    {
      DirectSaveMeans(buffer, m);
      var existingNames := ExistingNames();
      error := Refused(existingNames, m);
      if error {
        return;
      }
      DirectSaveRow(buffer, m);
      var value := m.TypedValue();
      if m.KeepValue() {
        if m.originalName !in buffer {
          error := true;
          return;
        }
        value := buffer[m.originalName].value;
      }
      var spec := Row(value, m.EffectiveIsSecret());
      bufferedList := ListSave(bufferedList, buffer, m, spec, leq);
      if m.IsRename() {
        buffer := buffer - {m.originalName};
      }
      buffer := buffer[m.name := spec];
      ListsShow(bufferedList, buffer);
    }

    /** `handleDelete`, buffered branch. */
    method HandleDelete(name: string)
      requires Valid()
      modifies this
      ensures Valid() && buffer == old(buffer) - {name}
    {
      WithoutNameLists(bufferedList, Masked(buffer), name);
      buffer := buffer - {name};
      assert Masked(buffer) == Masked(old(buffer)) - {name};
      bufferedList := WithoutName(bufferedList, name);
      ListsShow(bufferedList, buffer);
    }

    /** After any run of edits the map is that run made on it directly, and
        the list holds one matching row per variable of the result. */
    method Run(edits: seq<Edit>)
      requires Valid() && CanRun(buffer, edits)
      modifies this
      ensures Valid() && buffer == DirectRun(old(buffer), edits)
      ensures Shows(bufferedList, DirectRun(old(buffer), edits))
    {
      for i := 0 to |edits|
        invariant Valid() && CanRun(buffer, edits[i..])
        invariant DirectRun(buffer, edits[i..]) == DirectRun(old(buffer), edits)
      {
        assert edits[i..][1..] == edits[i + 1..];
        match edits[i] {
          case Save(m) =>
            var error := HandleSave(m);
          case Delete(name) =>
            HandleDelete(name);
        }
      }
    }
  }
}
