/** The variables manager of the dashboard: the deferred edit buffer and
    the buffered list of the create wizard. Both are proved against
    editing the table of variables directly (`DirectSave`). */
module TemplateVarsManager {
  import opened Common
  import opened TemplateVars

  // ----- the edits, applied to a table directly -----

  datatype Mode = AddMode | ReplaceMode

  /** The modal when Save is clicked. In replace mode `originalName` is the
      edited row and `replacingSecret` its flag; `isSecret` is the toggle
      of the Add form. */
  datatype Modal = Modal(mode: Mode, name: string, originalName: string, value: string, clear: bool,
                         isSecret: bool, replacingSecret: bool)
  {
    predicate IsRename() {
      mode == ReplaceMode && name != originalName
    }

    /** A password replaced with a blank box keeps its value. */
    predicate KeepValue() {
      mode == ReplaceMode && replacingSecret && value == "" && !clear
    }

    function TypedValue(): string {
      if clear then "" else value
    }

    function EffectiveIsSecret(): bool {
      if mode == ReplaceMode then replacingSecret else isSecret
    }
  }

  /** The modal was opened on the displayed table `t`. */
  predicate OpenOn(t: Table, m: Modal) {
    match m.mode
    case AddMode => m.originalName == ""
    case ReplaceMode => m.originalName in t && m.replacingSecret == t[m.originalName].isSecret
  }

  predicate Refused(names: set<string>, m: Modal) {
    !NameOk(m.name) || ((m.mode == AddMode || m.IsRename()) && m.name in names)
  }

  /** What a Save means for the table the user sees. */
  function DirectSave(t: Table, m: Modal): Table
    requires OpenOn(t, m)
  {
    if Refused(t.Keys, m) then t
    else match m.mode
      case AddMode => t[m.name := Row(m.TypedValue(), m.isSecret)]
      case ReplaceMode =>
        var row := t[m.originalName];
        (t - {m.originalName})[m.name := Row(if m.KeepValue() then row.value else m.TypedValue(), row.isSecret)]
  }

  /** The modal's name is valid, and free unless it is the edited row's. */
  ghost predicate Accepted(t: Table, m: Modal) {
    NameOk(m.name) && (m.name in t ==> m.mode == ReplaceMode && m.name == m.originalName)
  }

  /** Clear empties the value, what is typed replaces it, and a blank box
      keeps a password and empties anything else. The edited row keeps its
      flag, a new one gets the toggle's. A rename drops the old name, and no
      other row changes. */
  ghost predicate SavedAs(t: Table, m: Modal, u: Table)
    requires OpenOn(t, m)
  {
    && m.name in u
    && (m.clear ==> u[m.name].value == "")
    && (!m.clear && m.value != "" ==> u[m.name].value == m.value)
    && (!m.clear && m.value == "" ==>
         u[m.name].value == if m.mode == ReplaceMode && t[m.originalName].isSecret then t[m.originalName].value else "")
    && u[m.name].isSecret == (if m.mode == ReplaceMode then t[m.originalName].isSecret else m.isSecret)
    && (m.mode == ReplaceMode && m.originalName != m.name ==> m.originalName !in u)
    && (forall n :: n != m.name && (m.mode == AddMode || n != m.originalName) ==>
         (n in u <==> n in t) && (n in t ==> u[n] == t[n]))
  }

  /** What the Save of an accepted modal does; any other changes nothing. */
  lemma DirectSaveMeans(t: Table, m: Modal)
    requires OpenOn(t, m)
    ensures Refused(t.Keys, m) <==> !Accepted(t, m)
    ensures Accepted(t, m) ==> SavedAs(t, m, DirectSave(t, m))
    ensures !Accepted(t, m) ==> DirectSave(t, m) == t
  {
  }

  datatype Edit = Save(modal: Modal) | Delete(name: string)

  predicate CanEdit(t: Table, e: Edit) {
    e.Save? ==> OpenOn(t, e.modal)
  }

  function DirectEdit(t: Table, e: Edit): Table
    requires CanEdit(t, e)
  {
    match e
    case Save(m) => DirectSave(t, m)
    case Delete(name) => t - {name}
  }

  predicate CanRun(t: Table, edits: seq<Edit>)
    decreases |edits|
  {
    edits == [] || (CanEdit(t, edits[0]) && CanRun(DirectEdit(t, edits[0]), edits[1..]))
  }

  function DirectRun(t: Table, edits: seq<Edit>): Table
    requires CanRun(t, edits)
    decreases |edits|
  {
    if edits == [] then t else DirectRun(DirectEdit(t, edits[0]), edits[1..])
  }

  // ----- the deferred buffer -----

  function DeleteSet(c: Changes): set<string> {
    set name | name in c.deletes
  }

  /** The names listed for a buffer over the saved names. */
  function Displayed(savedNames: set<string>, c: Changes): set<string> {
    savedNames - DeleteSet(c) + c.sets.Keys
  }

  function QueueDelete(savedNames: set<string>, deletes: seq<string>, name: string): seq<string> {
    if name in savedNames && name !in deletes then deletes + [name] else deletes
  }

  function Put(c: Changes, name: string, spec: SetSpec): Changes {
    Changes(c.sets[name := spec], c.deletes)
  }

  function Other(name: string): string -> bool {
    n => n != name
  }

  function Restore(c: Changes, name: string): Changes {
    Changes(c.sets - {name}, Filter(c.deletes, Other(name)))
  }

  /** The saved row a kept value of `name` lives in. */
  function KeptFrom(c: Changes, name: string): string {
    if name in c.sets && c.sets[name].renameFrom.Some? then c.sets[name].renameFrom.value else name
  }

  /** The buffer after a Save in deferred mode. */
  function SaveStep(savedNames: set<string>, c: Changes, m: Modal): Changes {
    if Refused(Displayed(savedNames, c), m) then c
    else if m.KeepValue() && m.originalName !in c.sets && !m.IsRename() then c
    else
      var d := if m.IsRename() then DeleteStep(savedNames, c, m.originalName) else c;
      if !m.KeepValue() then
        Put(d, m.name, SetSpec(Some(m.TypedValue()), m.EffectiveIsSecret(), None))
      else if m.originalName in c.sets && c.sets[m.originalName].value.Some? then
        Put(d, m.name, c.sets[m.originalName].(isSecret := m.EffectiveIsSecret()))
      else if KeptFrom(c, m.originalName) == m.name then
        Restore(d, m.name)
      else
        Put(d, m.name, SetSpec(None, m.EffectiveIsSecret(), Some(KeptFrom(c, m.originalName))))
  }

  /** The buffer after a Delete in deferred mode. */
  function DeleteStep(savedNames: set<string>, c: Changes, name: string): Changes {
    Changes(c.sets - {name}, QueueDelete(savedNames, c.deletes, name))
  }

  function EditStep(savedNames: set<string>, c: Changes, e: Edit): Changes {
    match e
    case Save(m) => SaveStep(savedNames, c, m)
    case Delete(name) => DeleteStep(savedNames, c, name)
  }

  function EditRun(savedNames: set<string>, c: Changes, edits: seq<Edit>): Changes
    decreases |edits|
  {
    if edits == [] then c else EditRun(savedNames, EditStep(savedNames, c, edits[0]), edits[1..])
  }

  predicate SavedOk(saved: Table) {
    forall name :: name in saved ==> NameOk(name)
  }

  predicate Kept(c: Changes, name: string) {
    name in c.sets && c.sets[name].value.None?
  }

  /** A kept value names a deleted saved password, and does not sit on a
      live saved row. */
  predicate KeptOk(saved: Table, c: Changes, name: string)
    requires Kept(c, name)
  {
    var from := c.sets[name].renameFrom;
    && from.Some? && from.value in saved && from.value in c.deletes && from.value != name
    && saved[from.value].isSecret && c.sets[name].isSecret
    && (name in saved ==> name in c.deletes)
  }

  /** What every reachable buffer satisfies. */
  ghost predicate BufferOk(saved: Table, c: Changes) {
    && SavedOk(saved)
    && NoDup(c.deletes)
    && (forall name :: name in c.deletes ==> name in saved)
    && (forall name :: name in c.sets ==> NameOk(name))
    && (forall name :: Kept(c, name) ==> KeptOk(saved, c, name))
    && (forall m, n :: Kept(c, m) && Kept(c, n) && m != n ==> c.sets[m].renameFrom != c.sets[n].renameFrom)
    && (forall name :: name in c.sets && !Kept(c, name) ==> c.sets[name].renameFrom.None?)
  }

  lemma EmptyBufferOk(saved: Table)
    requires SavedOk(saved)
    ensures BufferOk(saved, Changes(map[], []))
    ensures Flush(saved, Changes(map[], [])) == saved
  {
  }

  lemma BufferKeeps(saved: Table, c: Changes)
    requires BufferOk(saved, c)
    ensures KeepsOk(saved, c)
  {
  }

  /** The backend accepts a reachable buffer exactly when it sets no system
      variable, and the listed names are the names of the flush. */
  lemma BufferAccepted(saved: Table, c: Changes)
    requires BufferOk(saved, c)
    ensures Accepts(saved, c) <==> c.sets.Keys !! SYSTEM_VARIABLES
    ensures Flush(saved, c).Keys == Displayed(saved.Keys, c)
  {
    BufferKeeps(saved, c);
  }

  // Every step is built from three changes of the buffer: a name dropped,
  // a set put, a deleted saved row restored.

  lemma QueueDeleteIn(savedNames: set<string>, deletes: seq<string>, name: string)
    requires NoDup(deletes)
    ensures NoDup(QueueDelete(savedNames, deletes, name))
    ensures forall n :: n in QueueDelete(savedNames, deletes, name) <==> n in deletes || (n == name && name in savedNames)
  {
  }

  lemma DropKeepsBufferOk(saved: Table, c: Changes, name: string)
    requires BufferOk(saved, c)
    ensures BufferOk(saved, DeleteStep(saved.Keys, c, name))
  {
  }

  predicate SameAt(c: Changes, d: Changes, n: string) {
    && (n in c.sets <==> n in d.sets) && (n in c.sets ==> c.sets[n] == d.sets[n])
    && (n in c.deletes <==> n in d.deletes)
  }

  /** Two buffers that differ only at `name` flush to tables that differ
      only at `name`. */
  lemma FlushChangedAt(saved: Table, c: Changes, d: Changes, name: string)
    requires KeepsOk(saved, c) && KeepsOk(saved, d)
    requires forall n :: n != name ==> SameAt(c, d, n)
    ensures FlushKeeps(saved, d, name) ==>
      Flush(saved, d) == Flush(saved, c)[name := FlushRow(saved, d, name)]
    ensures !FlushKeeps(saved, d, name) ==> Flush(saved, d) == Flush(saved, c) - {name}
  {
    forall n | n != name && FlushKeeps(saved, c, n)
      ensures FlushKeeps(saved, d, n) && FlushRow(saved, c, n) == FlushRow(saved, d, n)
    {
      assert SameAt(c, d, n);
    }
    forall n | n != name && FlushKeeps(saved, d, n)
      ensures FlushKeeps(saved, c, n)
    {
      assert SameAt(c, d, n);
    }
  }

  lemma DropFlush(saved: Table, c: Changes, d: Changes, name: string)
    requires KeepsOk(saved, c) && KeepsOk(saved, d) && d.sets == c.sets - {name}
    requires forall n :: n in d.deletes <==> n in c.deletes || (n == name && name in saved)
    ensures Flush(saved, d) == Flush(saved, c) - {name}
  {
    FlushChangedAt(saved, c, d, name);
  }

  /** One Delete in the buffer, flushed, is the Delete made on the table. */
  lemma DeleteRefines(saved: Table, c: Changes, name: string)
    requires BufferOk(saved, c)
    ensures BufferOk(saved, DeleteStep(saved.Keys, c, name))
    ensures KeepsOk(saved, c) && KeepsOk(saved, DeleteStep(saved.Keys, c, name))
    ensures Flush(saved, DeleteStep(saved.Keys, c, name)) == Flush(saved, c) - {name}
  {
    var d := DeleteStep(saved.Keys, c, name);
    DropKeepsBufferOk(saved, c, name);
    BufferKeeps(saved, c);
    BufferKeeps(saved, d);
    QueueDeleteIn(saved.Keys, c.deletes, name);
    DropFlush(saved, c, d, name);
  }

  lemma PutTypedOk(saved: Table, c: Changes, name: string, v: string, isSecret: bool)
    requires BufferOk(saved, c)
    requires NameOk(name)
    ensures BufferOk(saved, Put(c, name, SetSpec(Some(v), isSecret, None)))
  {
  }

  lemma PutTypedFlush(saved: Table, c: Changes, d: Changes, name: string, v: string, isSecret: bool)
    requires KeepsOk(saved, c) && KeepsOk(saved, d) && d == Put(c, name, SetSpec(Some(v), isSecret, None))
    requires Kept(c, name) ==> KeptOk(saved, c, name)
    requires FlushKeeps(saved, c, name) ==> FlushRow(saved, c, name).isSecret == isSecret
    ensures Flush(saved, d) == Flush(saved, c)[name := Row(v, isSecret)]
  {
    FlushChangedAt(saved, c, d, name);
  }

  /** A typed value under a listed name keeps the listed flag; under any
      other name it takes its own. */
  lemma PutTyped(saved: Table, c: Changes, name: string, v: string, isSecret: bool)
    requires BufferOk(saved, c) && KeepsOk(saved, c)
    requires NameOk(name)
    requires name in Flush(saved, c) ==> Flush(saved, c)[name].isSecret == isSecret
    ensures var d := Put(c, name, SetSpec(Some(v), isSecret, None));
      BufferOk(saved, d) && KeepsOk(saved, d) && Flush(saved, d) == Flush(saved, c)[name := Row(v, isSecret)]
  {
    var d := Put(c, name, SetSpec(Some(v), isSecret, None));
    PutTypedOk(saved, c, name, v, isSecret);
    BufferKeeps(saved, d);
    assert Kept(c, name) ==> KeptOk(saved, c, name);
    PutTypedFlush(saved, c, d, name, v, isSecret);
  }

  ghost predicate FreeSource(saved: Table, c: Changes, source: string) {
    && source in saved && saved[source].isSecret && source in c.deletes
    && forall n :: Kept(c, n) ==> c.sets[n].renameFrom != Some(source)
  }

  lemma PutKeptOk(saved: Table, c: Changes, name: string, source: string)
    requires BufferOk(saved, c)
    requires NameOk(name) && name != source && FreeSource(saved, c, source) && name !in Displayed(saved.Keys, c)
    ensures BufferOk(saved, Put(c, name, SetSpec(None, true, Some(source))))
  {
    var d := Put(c, name, SetSpec(None, true, Some(source)));
    forall n | Kept(d, n)
      ensures KeptOk(saved, d, n)
    {
      assert n != name ==> Kept(c, n) && KeptOk(saved, c, n);
    }
    forall m, n | Kept(d, m) && Kept(d, n) && m != n
      ensures d.sets[m].renameFrom != d.sets[n].renameFrom
    {
      assert (m != name ==> Kept(c, m)) && (n != name ==> Kept(c, n));
    }
    forall n | n in d.sets && !Kept(d, n)
      ensures d.sets[n].renameFrom.None?
    {
      assert n != name ==> !Kept(c, n);
    }
  }

  lemma PutKeptFlush(saved: Table, c: Changes, d: Changes, name: string, source: string)
    requires KeepsOk(saved, c) && KeepsOk(saved, d) && d == Put(c, name, SetSpec(None, true, Some(source)))
    requires NameOk(source) && source in saved
    ensures Flush(saved, d) == Flush(saved, c)[name := saved[source]]
  {
    FlushChangedAt(saved, c, d, name);
  }

  /** A kept value under a name not listed. */
  lemma PutKept(saved: Table, c: Changes, name: string, source: string)
    requires BufferOk(saved, c) && KeepsOk(saved, c)
    requires NameOk(name) && name != source && FreeSource(saved, c, source) && name !in Displayed(saved.Keys, c)
    ensures var d := Put(c, name, SetSpec(None, true, Some(source)));
      BufferOk(saved, d) && KeepsOk(saved, d) && Flush(saved, d) == Flush(saved, c)[name := saved[source]]
  {
    var d := Put(c, name, SetSpec(None, true, Some(source)));
    PutKeptOk(saved, c, name, source);
    BufferKeeps(saved, d);
    PutKeptFlush(saved, c, d, name, source);
  }

  lemma RestoreRowOk(saved: Table, c: Changes, source: string)
    requires BufferOk(saved, c)
    requires FreeSource(saved, c, source) && source !in Displayed(saved.Keys, c)
    ensures BufferOk(saved, Restore(c, source))
  {
    var d := Restore(c, source);
    assert d.sets == c.sets;
    FilterNoDup(c.deletes, Other(source));
    FilterIn(c.deletes, Other(source));
    forall n | Kept(d, n)
      ensures KeptOk(saved, d, n)
    {
      assert Kept(c, n) && KeptOk(saved, c, n);
    }
    forall m, n | Kept(d, m) && Kept(d, n) && m != n
      ensures d.sets[m].renameFrom != d.sets[n].renameFrom
    {
      assert Kept(c, m) && Kept(c, n);
    }
    forall n | n in d.sets && !Kept(d, n)
      ensures d.sets[n].renameFrom.None?
    {
      assert !Kept(c, n);
    }
  }

  lemma RestoreFlush(saved: Table, c: Changes, d: Changes, source: string)
    requires KeepsOk(saved, c) && KeepsOk(saved, d) && d == Restore(c, source)
    requires source in saved && source !in c.sets
    ensures Flush(saved, d) == Flush(saved, c)[source := saved[source]]
  {
    assert d.sets == c.sets;
    FilterIn(c.deletes, Other(source));
    FlushChangedAt(saved, c, d, source);
  }

  /** A deleted saved row taken back as it is. */
  lemma RestoreRow(saved: Table, c: Changes, source: string)
    requires BufferOk(saved, c) && KeepsOk(saved, c)
    requires FreeSource(saved, c, source) && source !in Displayed(saved.Keys, c)
    ensures var d := Restore(c, source);
      BufferOk(saved, d) && KeepsOk(saved, d) && Flush(saved, d) == Flush(saved, c)[source := saved[source]]
  {
    var d := Restore(c, source);
    RestoreRowOk(saved, c, source);
    BufferKeeps(saved, d);
    RestoreFlush(saved, c, d, source);
  }

  /** The source of a password's kept value, once its old name is dropped. */
  lemma KeptSource(saved: Table, c: Changes, orig: string)
    requires BufferOk(saved, c) && KeepsOk(saved, c)
    requires orig in Flush(saved, c) && Flush(saved, c)[orig].isSecret
    requires orig in c.sets ==> Kept(c, orig)
    ensures var source := KeptFrom(c, orig);
      FreeSource(saved, DeleteStep(saved.Keys, c, orig), source) && saved[source] == Flush(saved, c)[orig]
  {
  }

  lemma SaveRenameRefines(saved: Table, c: Changes, m: Modal)
    requires BufferOk(saved, c) && KeepsOk(saved, c) && OpenOn(Flush(saved, c), m)
    requires m.IsRename() && NameOk(m.name) && m.name !in Flush(saved, c)
    requires Flush(saved, c).Keys == Displayed(saved.Keys, c)
    ensures BufferOk(saved, SaveStep(saved.Keys, c, m))
    ensures KeepsOk(saved, SaveStep(saved.Keys, c, m))
    ensures Flush(saved, SaveStep(saved.Keys, c, m)) == DirectSave(Flush(saved, c), m)
  {
    var t := Flush(saved, c);
    var d := DeleteStep(saved.Keys, c, m.originalName);
    DeleteRefines(saved, c, m.originalName);
    if !m.KeepValue() {
      PutTyped(saved, d, m.name, m.TypedValue(), m.EffectiveIsSecret());
    } else if m.originalName in c.sets && c.sets[m.originalName].value.Some? {
      PutTyped(saved, d, m.name, c.sets[m.originalName].value.value, true);
    } else {
      KeptSource(saved, c, m.originalName);
      if KeptFrom(c, m.originalName) == m.name {
        RestoreRow(saved, d, m.name);
      } else {
        PutKept(saved, d, m.name, KeptFrom(c, m.originalName));
      }
    }
  }

  lemma KeepSaveIsNothing(t: Table, m: Modal)
    requires OpenOn(t, m) && m.KeepValue() && !m.IsRename() && NameOk(m.name)
    ensures DirectSave(t, m) == t && t[m.name].isSecret
  {
  }

  /** A pending password saved again with a blank box. */
  lemma SaveAgainRefines(saved: Table, c: Changes, m: Modal)
    requires BufferOk(saved, c) && KeepsOk(saved, c) && OpenOn(Flush(saved, c), m)
    requires m.KeepValue() && !m.IsRename() && NameOk(m.name)
    requires Flush(saved, c).Keys == Displayed(saved.Keys, c)
    ensures BufferOk(saved, SaveStep(saved.Keys, c, m))
    ensures KeepsOk(saved, SaveStep(saved.Keys, c, m))
    ensures Flush(saved, SaveStep(saved.Keys, c, m)) == DirectSave(Flush(saved, c), m)
  {
    var t := Flush(saved, c);
    KeepSaveIsNothing(t, m);
    if m.name !in c.sets {
      assert SaveStep(saved.Keys, c, m) == c;
    } else if c.sets[m.name].value.Some? {
      assert !Kept(c, m.name);
      var v := c.sets[m.name].value.value;
      assert SaveStep(saved.Keys, c, m) == Put(c, m.name, SetSpec(Some(v), true, None));
      PutTyped(saved, c, m.name, v, true);
      assert t[m.name := Row(v, true)] == t;
    } else {
      assert KeptOk(saved, c, m.name);
      assert SaveStep(saved.Keys, c, m) == Put(c, m.name, c.sets[m.name]) == c;
    }
  }

  lemma DirectTyped(t: Table, m: Modal)
    requires OpenOn(t, m) && !Refused(t.Keys, m) && !m.KeepValue() && !m.IsRename()
    ensures DirectSave(t, m) == t[m.name := Row(m.TypedValue(), m.EffectiveIsSecret())]
    ensures m.name in t ==> t[m.name].isSecret == m.EffectiveIsSecret()
  {
  }

  /** A value typed on Add, or on Replace under the same name. */
  lemma SaveTypedRefines(saved: Table, c: Changes, m: Modal)
    requires BufferOk(saved, c) && KeepsOk(saved, c) && OpenOn(Flush(saved, c), m)
    requires !Refused(Displayed(saved.Keys, c), m) && !m.KeepValue() && !m.IsRename()
    requires Flush(saved, c).Keys == Displayed(saved.Keys, c)
    ensures BufferOk(saved, SaveStep(saved.Keys, c, m))
    ensures KeepsOk(saved, SaveStep(saved.Keys, c, m))
    ensures Flush(saved, SaveStep(saved.Keys, c, m)) == DirectSave(Flush(saved, c), m)
  {
    DirectTyped(Flush(saved, c), m);
    PutTyped(saved, c, m.name, m.TypedValue(), m.EffectiveIsSecret());
  }

  /** One Save in the buffer, flushed, is the Save made on the table. */
  lemma SaveRefines(saved: Table, c: Changes, m: Modal)
    requires BufferOk(saved, c) && KeepsOk(saved, c) && OpenOn(Flush(saved, c), m)
    ensures BufferOk(saved, SaveStep(saved.Keys, c, m))
    ensures KeepsOk(saved, SaveStep(saved.Keys, c, m))
    ensures Flush(saved, SaveStep(saved.Keys, c, m)) == DirectSave(Flush(saved, c), m)
  {
    assert Flush(saved, c).Keys == Displayed(saved.Keys, c) by {
      BufferAccepted(saved, c);
    }
    if Refused(Displayed(saved.Keys, c), m) {
    } else if m.IsRename() {
      SaveRenameRefines(saved, c, m);
    } else if m.KeepValue() {
      SaveAgainRefines(saved, c, m);
    } else {
      SaveTypedRefines(saved, c, m);
    }
  }

  /** Any run of edits in the buffer, flushed once at its end, is the same
      run made on the table. */
  lemma {:induction false} DeferredRunRefinesDirect(saved: Table, c: Changes, edits: seq<Edit>)
    requires BufferOk(saved, c) && KeepsOk(saved, c) && CanRun(Flush(saved, c), edits)
    ensures BufferOk(saved, EditRun(saved.Keys, c, edits))
    ensures KeepsOk(saved, EditRun(saved.Keys, c, edits))
    ensures Flush(saved, EditRun(saved.Keys, c, edits)) == DirectRun(Flush(saved, c), edits)
    decreases |edits|
  {
    if edits == [] {
    } else {
      match edits[0] {
        case Save(m) => SaveRefines(saved, c, m);
        case Delete(name) => DeleteRefines(saved, c, name);
      }
      DeferredRunRefinesDirect(saved, EditStep(saved.Keys, c, edits[0]), edits[1..]);
    }
  }

  /** The backend accepts the buffer a run of edits leaves exactly when it
      sets no system variable; where none is saved, exactly when the edited
      table holds none. */
  lemma RunAccepted(saved: Table, edits: seq<Edit>)
    requires SavedOk(saved) && CanRun(saved, edits)
    ensures var c := EditRun(saved.Keys, Changes(map[], []), edits);
      && (Accepts(saved, c) <==> c.sets.Keys !! SYSTEM_VARIABLES)
      && (saved.Keys !! SYSTEM_VARIABLES ==> (Accepts(saved, c) <==> DirectRun(saved, edits).Keys !! SYSTEM_VARIABLES))
  {
    EmptyBufferOk(saved);
    DeferredRunRefinesDirect(saved, Changes(map[], []), edits);
    BufferAccepted(saved, EditRun(saved.Keys, Changes(map[], []), edits));
  }

  /** Edits made in the buffer and then saved by the backend leave the
      rows that editing the saved rows directly leaves, or are refused as a
      whole, for a system variable's name. */
  method EditThenSave(store: TemplateVarStore, edits: seq<Edit>) returns (ok: bool)
    requires SavedOk(store.rows) && CanRun(store.rows, edits)
    modifies store
    ensures ok <==> EditRun(old(store.rows).Keys, Changes(map[], []), edits).sets.Keys !! SYSTEM_VARIABLES
    ensures old(store.rows).Keys !! SYSTEM_VARIABLES ==>
      (ok <==> DirectRun(old(store.rows), edits).Keys !! SYSTEM_VARIABLES)
    ensures store.rows == if ok then DirectRun(old(store.rows), edits) else old(store.rows)
  {
    EmptyBufferOk(store.rows);
    DeferredRunRefinesDirect(store.rows, Changes(map[], []), edits);
    RunAccepted(store.rows, edits);
    ok := store.SaveChanges(EditRun(store.rows.Keys, Changes(map[], []), edits));
  }

  /** The dashboard takes HOME as the name of a new variable; the backend
      then refuses the save. */
  lemma SystemVariableRefused(saved: Table)
    requires SavedOk(saved) && "HOME" !in saved
    ensures var m := Modal(AddMode, "HOME", "", "x", false, true, true);
      var c := EditRun(saved.Keys, Changes(map[], []), [Save(m)]);
      && OpenOn(saved, m) && !Refused(saved.Keys, m) && "HOME" in DirectRun(saved, [Save(m)])
      && !Accepts(saved, c)
  {
    var m := Modal(AddMode, "HOME", "", "x", false, true, true);
    assert NameOk(m.name);
    assert [Save(m)][1..] == [];
    var c := SaveStep(saved.Keys, Changes(map[], []), m);
    assert EditRun(saved.Keys, Changes(map[], []), [Save(m)]) == EditRun(saved.Keys, c, []) == c;
    assert m.name in c.sets;
  }

  // ----- rename chains -----

  /** A password row renamed with the value box left blank. */
  function KeptRename(from: string, to: string): Edit {
    Save(Modal(ReplaceMode, to, from, "", false, true, true))
  }

  /** `from` renamed to each of `names` in turn. */
  function RenameAlong(from: string, names: seq<string>): seq<Edit>
    decreases |names|
  {
    if names == [] then [] else [KeptRename(from, names[0])] + RenameAlong(names[0], names[1..])
  }

  /** Each name differs from the one before and is free when it is taken:
      `c` lists it only if it is `p`, the row being renamed. */
  predicate FreeChain(savedNames: set<string>, c: Changes, p: string, from: string, names: seq<string>)
    decreases |names|
  {
    names == [] || (
      && NameOk(names[0]) && names[0] != from && (names[0] == p || names[0] !in Displayed(savedNames, c))
      && FreeChain(savedNames, c, p, names[0], names[1..]))
  }

  /** The buffer while the saved password `p` is shown as `cur`. */
  function Renamed(c: Changes, p: string, cur: string): Changes {
    if cur == p then c else Changes(c.sets[cur := SetSpec(None, true, Some(p))], c.deletes + [p])
  }

  lemma RenameStep(savedNames: set<string>, c: Changes, p: string, cur: string, next: string)
    requires p in savedNames && p !in c.deletes && p !in c.sets
    requires cur == p || cur !in Displayed(savedNames, c)
    requires forall n :: n in c.deletes ==> n in savedNames
    requires NameOk(next) && next != cur && (next == p || next !in Displayed(savedNames, c))
    ensures EditStep(savedNames, Renamed(c, p, cur), KeptRename(cur, next)) == Renamed(c, p, next)
  {
    var d, e := Renamed(c, p, cur), KeptRename(cur, next);
    assert p in d.deletes <==> cur != p;
    assert next !in Displayed(savedNames, d);
    assert DeleteStep(savedNames, d, cur) == Changes(c.sets, c.deletes + [p]);
    if next == p {
      FilterAppend(c.deletes, [p], Other(p));
      FilterAll(c.deletes, Other(p));
    }
  }

  /** Renaming a saved, unedited password through free names, its value
      kept, leaves one queued rename; back under its own name, the buffer
      is exactly what it was. */
  lemma {:induction false} RenameChain(savedNames: set<string>, c: Changes, p: string, cur: string, names: seq<string>)
    requires p in savedNames && p !in c.deletes && p !in c.sets
    requires cur == p || cur !in Displayed(savedNames, c)
    requires forall n :: n in c.deletes ==> n in savedNames
    requires FreeChain(savedNames, c, p, cur, names)
    ensures EditRun(savedNames, Renamed(c, p, cur), RenameAlong(cur, names))
         == Renamed(c, p, if names == [] then cur else names[|names| - 1])
    decreases |names|
  {
    if names == [] {
    } else {
      RenameStep(savedNames, c, p, cur, names[0]);
      RenameChain(savedNames, c, p, names[0], names[1..]);
      var edits := RenameAlong(cur, names);
      assert edits[1..] == RenameAlong(names[0], names[1..]);
    }
  }

  lemma RenameChainCancels(saved: Table, c: Changes, p: string, names: seq<string>)
    requires BufferOk(saved, c)
    requires p in saved && p !in c.deletes && p !in c.sets
    requires names != [] && names[|names| - 1] == p && FreeChain(saved.Keys, c, p, p, names)
    ensures EditRun(saved.Keys, c, RenameAlong(p, names)) == c
  {
    RenameChain(saved.Keys, c, p, p, names);
  }
}
