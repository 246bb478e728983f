/** The MCP import dialog: rows grouped by project, ids checked while they
    are edited, and the payload that confirms the import. */
module ImportMcp {
  import opened Common

  datatype ImportEntry = ImportEntry(scope: string, projectPath: Option<string>, groupLabel: string, originalId: string, proposedId: string)

  datatype ImportGroup = ImportGroup(groupLabel: string, scope: string, projectPath: Option<string>, entries: seq<ImportEntry>)

  datatype IdError = Empty | Exists | Duplicate

  datatype ConfirmEntry = ConfirmEntry(scope: string, projectPath: Option<string>, originalId: string, targetId: string)

  function PathOf(e: ImportEntry): string {
    if e.projectPath.Some? then e.projectPath.value else ""
  }

  function GroupKey(e: ImportEntry): string {
    e.scope + ":" + PathOf(e)
  }

  function RowKey(e: ImportEntry): string {
    e.scope + ":" + PathOf(e) + ":" + e.originalId
  }

  /** No path counts as an empty one. */
  predicate SamePath(a: Option<string>, b: Option<string>) {
    a == b || (a in {None, Some("")} && b in {None, Some("")})
  }

  lemma SplitAtColon(s: string, a: string, b: string, x: string, y: string)
    requires ':' !in x && s == a + ":" + b && s == x + ":" + y
    ensures |a| >= |x|
  {
    assert s[|a|] == ':';
    assert forall i :: 0 <= i < |x| ==> s[i] == x[i] && x[i] in x;
  }

  /** Rows share a key exactly when they share the scope and the project
      path, not merely its last part (no path counts as an empty one). */
  lemma GroupKeyExact(e: ImportEntry, f: ImportEntry)
    requires ':' !in e.scope && ':' !in f.scope
    ensures GroupKey(e) == GroupKey(f) <==> e.scope == f.scope && SamePath(e.projectPath, f.projectPath)
  {
    if GroupKey(e) == GroupKey(f) {
      SplitAtColon(GroupKey(e), e.scope, PathOf(e), f.scope, PathOf(f));
      SplitAtColon(GroupKey(e), f.scope, PathOf(f), e.scope, PathOf(e));
      var n := |e.scope|;
      assert GroupKey(e)[..n] == e.scope && GroupKey(f)[..n] == f.scope;
      assert GroupKey(e)[n + 1..] == PathOf(e) && GroupKey(f)[n + 1..] == PathOf(f);
    }
  }

  lemma SplitAtLastColon(s: string, a: string, b: string, x: string, y: string)
    requires ':' !in y && s == a + ":" + b && s == x + ":" + y
    ensures |a| <= |x|
  {
    assert s[|a|] == ':';
    assert forall i :: 0 <= i < |y| ==> s[|x| + 1 + i] == y[i] && y[i] in y;
  }

  /** Rows have the same key exactly when they have the same scope, project
      path and id, where scopes and ids have no colon. */
  lemma RowKeyExact(e: ImportEntry, f: ImportEntry)
    requires ':' !in e.scope && ':' !in f.scope && ':' !in e.originalId && ':' !in f.originalId
    ensures RowKey(e) == RowKey(f) <==> e.scope == f.scope && SamePath(e.projectPath, f.projectPath) && e.originalId == f.originalId
  {
    assert RowKey(e) == GroupKey(e) + ":" + e.originalId && RowKey(f) == GroupKey(f) + ":" + f.originalId;
    GroupKeyExact(e, f);
    if RowKey(e) == RowKey(f) {
      SplitAtLastColon(RowKey(e), GroupKey(e), e.originalId, GroupKey(f), f.originalId);
      SplitAtLastColon(RowKey(e), GroupKey(f), f.originalId, GroupKey(e), e.originalId);
      var n := |GroupKey(e)|;
      assert RowKey(e)[..n] == GroupKey(e) && RowKey(f)[..n] == GroupKey(f);
      assert RowKey(e)[n + 1..] == e.originalId && RowKey(f)[n + 1..] == f.originalId;
    }
  }

  // ----- groups -----

  /** The distinct group keys, in the order they are first seen. */
  function FirstSeen(entries: seq<ImportEntry>): seq<string> {
    if entries == [] then []
    else
      var last := |entries| - 1;
      var keys := FirstSeen(entries[..last]);
      if GroupKey(entries[last]) in keys then keys else keys + [GroupKey(entries[last])]
  }

  ghost predicate HasKey(entries: seq<ImportEntry>, key: string) {
    exists e :: e in entries && GroupKey(e) == key
  }

  lemma HasKeyStep(entries: seq<ImportEntry>, e: ImportEntry, key: string)
    ensures HasKey(entries + [e], key) <==> HasKey(entries, key) || GroupKey(e) == key
  {
    assert e in entries + [e];
    assert forall x :: x in entries ==> x in entries + [e];
  }

  lemma {:induction false} FirstSeenExact(entries: seq<ImportEntry>)
    ensures NoDup(FirstSeen(entries))
    ensures forall key :: key in FirstSeen(entries) <==> HasKey(entries, key)
  {
    if entries == [] {
    } else {
      var last := |entries| - 1;
      FirstSeenExact(entries[..last]);
      assert entries == entries[..last] + [entries[last]];
      forall key
        ensures key in FirstSeen(entries) <==> HasKey(entries, key)
      {
        HasKeyStep(entries[..last], entries[last], key);
      }
    }
  }

  function InGroup(key: string): ImportEntry -> bool {
    e => GroupKey(e) == key
  }

  /** The group of `key`: its entries in order, its heading from the first. */
  ghost predicate IsGroup(g: ImportGroup, entries: seq<ImportEntry>, key: string) {
    && g.entries == Filter(entries, InGroup(key)) && g.entries != []
    && g.groupLabel == g.entries[0].groupLabel && g.scope == g.entries[0].scope && g.projectPath == g.entries[0].projectPath
  }

  lemma GroupStep(g: ImportGroup, entries: seq<ImportEntry>, e: ImportEntry, key: string)
    requires IsGroup(g, entries, key)
    ensures IsGroup(if GroupKey(e) == key then g.(entries := g.entries + [e]) else g, entries + [e], key)
  {
    FilterAppend(entries, [e], InGroup(key));
  }

  lemma GroupStart(entries: seq<ImportEntry>, e: ImportEntry)
    requires GroupKey(e) !in FirstSeen(entries)
    ensures IsGroup(ImportGroup(e.groupLabel, e.scope, e.projectPath, [e]), entries + [e], GroupKey(e))
  {
    FirstSeenExact(entries);
    assert !HasKey(entries, GroupKey(e));
    FilterNone(entries, InGroup(GroupKey(e)));
    FilterAppend(entries, [e], InGroup(GroupKey(e)));
  }

  /** One group per distinct key, first seen first, each holding exactly
      the entries of its key in their order. */
  ghost predicate Groups(groups: seq<ImportGroup>, entries: seq<ImportEntry>) {
    && |groups| == |FirstSeen(entries)|
    && forall i {:trigger GroupAt(groups, entries, i)} :: 0 <= i < |groups| ==> GroupAt(groups, entries, i)
  }

  ghost predicate GroupAt(groups: seq<ImportGroup>, entries: seq<ImportEntry>, i: nat)
    requires i < |groups| == |FirstSeen(entries)|
  {
    IsGroup(groups[i], entries, FirstSeen(entries)[i])
  }

  lemma FirstSeenStep(entries: seq<ImportEntry>, e: ImportEntry)
    ensures var keys := FirstSeen(entries);
      FirstSeen(entries + [e]) == if GroupKey(e) in keys then keys else keys + [GroupKey(e)]
  {
    assert (entries + [e])[..|entries|] == entries;
  }

  lemma GroupsExtend(groups: seq<ImportGroup>, entries: seq<ImportEntry>, e: ImportEntry, at: nat)
    requires Groups(groups, entries) && at < |groups| && FirstSeen(entries)[at] == GroupKey(e)
    ensures Groups(groups[at := groups[at].(entries := groups[at].entries + [e])], entries + [e])
  {
    var keys := FirstSeen(entries);
    FirstSeenExact(entries);
    FirstSeenStep(entries, e);
    var longer := entries + [e];
    var next := groups[at := groups[at].(entries := groups[at].entries + [e])];
    forall i | 0 <= i < |next|
      ensures GroupAt(next, longer, i)
    {
      assert GroupAt(groups, entries, i);
      GroupStep(groups[i], entries, e, keys[i]);
    }
  }

  lemma GroupsStart(groups: seq<ImportGroup>, entries: seq<ImportEntry>, e: ImportEntry)
    requires Groups(groups, entries) && GroupKey(e) !in FirstSeen(entries)
    ensures Groups(groups + [ImportGroup(e.groupLabel, e.scope, e.projectPath, [e])], entries + [e])
  {
    var keys := FirstSeen(entries);
    FirstSeenStep(entries, e);
    GroupStart(entries, e);
    var longer := entries + [e];
    var next := groups + [ImportGroup(e.groupLabel, e.scope, e.projectPath, [e])];
    forall i | 0 <= i < |next|
      ensures GroupAt(next, longer, i)
    {
      if i < |groups| {
        assert GroupAt(groups, entries, i);
        GroupStep(groups[i], entries, e, keys[i]);
      }
    }
  }

  ghost predicate Indexes(byKey: map<string, nat>, keys: seq<string>) {
    && (forall k :: k in byKey <==> k in keys)
    && (forall k :: k in byKey ==> byKey[k] < |keys| && keys[byKey[k]] == k)
  }

  lemma IndexesStart(byKey: map<string, nat>, keys: seq<string>, key: string)
    requires Indexes(byKey, keys) && key !in keys
    ensures Indexes(byKey[key := |keys|], keys + [key])
  {
  }

  /** `groupEntries` */
  method GroupEntries(entries: seq<ImportEntry>) returns (groups: seq<ImportGroup>)
    ensures Groups(groups, entries)
  {
    groups := [];
    var byKey: map<string, nat> := map[];
    ghost var keys: seq<string> := [];
    for n := 0 to |entries|
      invariant Groups(groups, entries[..n]) && Indexes(byKey, keys) && keys == FirstSeen(entries[..n])
    {
      var e := entries[n];
      var key := GroupKey(e);
      ghost var seen := entries[..n];
      assert entries[..n + 1] == seen + [e];
      FirstSeenStep(seen, e);
      if key !in byKey {
        GroupsStart(groups, seen, e);
        IndexesStart(byKey, keys, key);
        byKey, keys := byKey[key := |groups|], keys + [key];
        groups := groups + [ImportGroup(e.groupLabel, e.scope, e.projectPath, [e])];
      } else {
        var at := byKey[key];
        GroupsExtend(groups, seen, e, at);
        groups := groups[at := groups[at].(entries := groups[at].entries + [e])];
      }
    }
    assert entries[..|entries|] == entries;
  }

  /** Every entry is in the group of its key and in no other. */
  lemma GroupsPartition(entries: seq<ImportEntry>, groups: seq<ImportGroup>, e: ImportEntry)
    requires Groups(groups, entries) && e in entries
    ensures exists i :: 0 <= i < |groups| && e in groups[i].entries
    ensures forall i, j :: 0 <= i < |groups| && 0 <= j < |groups| && e in groups[i].entries && e in groups[j].entries ==> i == j
  {
    var keys := FirstSeen(entries);
    FirstSeenExact(entries);
    assert HasKey(entries, GroupKey(e));
    forall i | 0 <= i < |groups|
      ensures e in groups[i].entries <==> keys[i] == GroupKey(e)
    {
      assert GroupAt(groups, entries, i);
      FilterIn(entries, InGroup(keys[i]));
      assert InGroup(keys[i])(e) <==> GroupKey(e) == keys[i];
    }
  }

  // ----- ids -----

  /** JavaScript's white space, which `trim` removes at both ends. */
  predicate IsSpace(c: char) {
    c in {' ', '\t', '\n', '\r', '\U{0B}', '\U{0C}', '\U{A0}', '\U{1680}', '\U{2028}', '\U{2029}', '\U{202F}', '\U{205F}',
          '\U{3000}', '\U{FEFF}'}
    || '\U{2000}' <= c <= '\U{200A}'
  }

  /** By their code points. */
  lemma IsSpaceCodes(c: char)
    ensures IsSpace(c) <==>
      9 <= c as int <= 13 || c as int in {32, 160, 5760, 8232, 8233, 8239, 8287, 12288, 65279} || 8192 <= c as int <= 8202
  {
  }

  predicate Blank(s: string) {
    forall i :: 0 <= i < |s| ==> IsSpace(s[i])
  }

  function Trim(s: string): (r: string)
    ensures r != "" ==> !IsSpace(r[0]) && !IsSpace(r[|r| - 1])
  {
    if s == "" then ""
    else if IsSpace(s[0]) then Trim(s[1..])
    else if IsSpace(s[|s| - 1]) then Trim(s[..|s| - 1])
    else s
  }

  /** Only white space is taken off, at the ends. */
  lemma {:induction false} TrimTakesBlanks(s: string) returns (before: string, after: string)
    ensures s == before + Trim(s) + after && Blank(before) && Blank(after)
  {
    if s == "" {
      before, after := "", "";
    } else if IsSpace(s[0]) {
      before, after := TrimTakesBlanks(s[1..]);
      assert s == [s[0]] + s[1..];
      before := [s[0]] + before;
    } else if IsSpace(s[|s| - 1]) {
      var last := |s| - 1;
      before, after := TrimTakesBlanks(s[..last]);
      assert s == s[..last] + [s[last]];
      after := after + [s[last]];
    } else {
      before, after := "", "";
    }
  }

  /** The id of a row as it is validated. */
  function IdOf(ids: map<string, string>, key: string): string {
    Trim(if key in ids then ids[key] else "")
  }

  /** Why a selected row is refused, if it is. */
  ghost function ErrorOf(selected: set<string>, ids: map<string, string>, existing: set<string>, key: string): Option<IdError> {
    var id := IdOf(ids, key);
    if id == "" then Some(Empty)
    else if id in existing then Some(Exists)
    else if exists other :: other in selected && other != key && IdOf(ids, other) == id then Some(Duplicate)
    else None
  }

  function SameId(selected: set<string>, ids: map<string, string>, id: string): set<string> {
    set k | k in selected && IdOf(ids, k) == id
  }

  function CountAt(counts: map<string, nat>, id: string): nat {
    if id in counts then counts[id] else 0
  }

  lemma SameIdAdd(seen: set<string>, ids: map<string, string>, key: string, id: string)
    requires key !in seen
    ensures |SameId(seen + {key}, ids, id)| == |SameId(seen, ids, id)| + if IdOf(ids, key) == id then 1 else 0
  {
    assert SameId(seen + {key}, ids, id) == SameId(seen, ids, id) + if IdOf(ids, key) == id then {key} else {};
  }

  method CountIds(selected: set<string>, ids: map<string, string>) returns (counts: map<string, nat>)
    ensures forall id :: CountAt(counts, id) == |SameId(selected, ids, id)|
  {
    counts := map[];
    var seen, todo: set<string> := {}, selected;
    while todo != {}
      invariant seen + todo == selected && seen !! todo
      invariant forall id :: CountAt(counts, id) == |SameId(seen, ids, id)|
    {
      var key :| key in todo;
      var id := IdOf(ids, key);
      var next := counts[id := CountAt(counts, id) + 1];
      forall other
        ensures CountAt(next, other) == |SameId(seen + {key}, ids, other)|
      {
        SameIdAdd(seen, ids, key, other);
      }
      counts, seen, todo := next, seen + {key}, todo - {key};
    }
  }

  lemma CountAboveOne(selected: set<string>, ids: map<string, string>, key: string)
    requires key in selected
    ensures |SameId(selected, ids, IdOf(ids, key))| > 1 <==>
      exists other :: other in selected && other != key && IdOf(ids, other) == IdOf(ids, key)
  {
    var same := SameId(selected, ids, IdOf(ids, key));
    assert same == (same - {key}) + {key};
    if |same - {key}| > 0 {
      var other :| other in same - {key};
    }
    if exists other :: other in selected && other != key && IdOf(ids, other) == IdOf(ids, key) {
      var other :| other in selected && other != key && IdOf(ids, other) == IdOf(ids, key);
      assert other in same - {key};
    }
  }

  /** `computeIdErrors`: the offending selected rows, each with its reason. */
  method ComputeIdErrors(selected: set<string>, ids: map<string, string>, existing: set<string>)
    returns (errors: map<string, IdError>)
    ensures forall k :: k in errors <==> k in selected && ErrorOf(selected, ids, existing, k).Some?
    ensures forall k :: k in errors ==> Some(errors[k]) == ErrorOf(selected, ids, existing, k)
  {
    var counts := CountIds(selected, ids);
    errors := map[];
    var todo := selected;
    while todo != {}
      invariant todo <= selected
      invariant forall k :: k in errors <==> k in selected - todo && ErrorOf(selected, ids, existing, k).Some?
      invariant forall k :: k in errors ==> Some(errors[k]) == ErrorOf(selected, ids, existing, k)
    {
      var key :| key in todo;
      todo := todo - {key};
      var id := IdOf(ids, key);
      CountAboveOne(selected, ids, key);
      if id == "" {
        errors := errors[key := Empty];
      } else if id in existing {
        errors := errors[key := Exists];
      } else if CountAt(counts, id) > 1 {
        errors := errors[key := Duplicate];
      }
    }
  }

  // ----- the confirm payload -----

  function Chosen(selected: set<string>): ImportEntry -> bool {
    e => RowKey(e) in selected
  }

  function Confirm(e: ImportEntry, ids: map<string, string>): ConfirmEntry {
    ConfirmEntry(e.scope, e.projectPath, e.originalId, Trim(if RowKey(e) in ids then ids[RowKey(e)] else e.proposedId))
  }

  function Confirmed(rows: seq<ImportEntry>, ids: map<string, string>): seq<ConfirmEntry> {
    seq(|rows|, i requires 0 <= i < |rows| => Confirm(rows[i], ids))
  }

  lemma ConfirmedStep(entries: seq<ImportEntry>, selected: set<string>, ids: map<string, string>, i: nat)
    requires i < |entries|
    ensures Confirmed(Filter(entries[..i + 1], Chosen(selected)), ids) ==
      Confirmed(Filter(entries[..i], Chosen(selected)), ids) + if RowKey(entries[i]) in selected then [Confirm(entries[i], ids)] else []
  {
    assert entries[..i + 1] == entries[..i] + [entries[i]];
    FilterAppend(entries[..i], [entries[i]], Chosen(selected));
  }

  /** `buildConfirmEntries`: one entry per selected row, in order. */
  method BuildConfirmEntries(entries: seq<ImportEntry>, selected: set<string>, ids: map<string, string>)
    returns (result: seq<ConfirmEntry>)
    ensures result == Confirmed(Filter(entries, Chosen(selected)), ids)
    ensures var rows := Filter(entries, Chosen(selected));
      |result| == |rows| && forall i :: 0 <= i < |rows| ==>
        && result[i].scope == rows[i].scope && result[i].projectPath == rows[i].projectPath
        && result[i].originalId == rows[i].originalId
        && result[i].targetId == Trim(if RowKey(rows[i]) in ids then ids[RowKey(rows[i])] else rows[i].proposedId)
  {
    result := [];
    for i := 0 to |entries|
      invariant result == Confirmed(Filter(entries[..i], Chosen(selected)), ids)
    {
      var e := entries[i];
      ConfirmedStep(entries, selected, ids, i);
      if RowKey(e) !in selected {
        continue;
      }
      result := result + [Confirm(e, ids)];
    }
    assert entries[..|entries|] == entries;
  }

  ghost predicate DistinctRows(entries: seq<ImportEntry>) {
    forall i, j :: 0 <= i < j < |entries| ==> RowKey(entries[i]) != RowKey(entries[j])
  }

  /** Ids that can be imported together: non-empty, new, and distinct. */
  ghost predicate Importable(confirmed: seq<ConfirmEntry>, existing: set<string>) {
    && (forall i :: 0 <= i < |confirmed| ==> confirmed[i].targetId != "" && confirmed[i].targetId !in existing)
    && (forall i, j :: 0 <= i < j < |confirmed| ==> confirmed[i].targetId != confirmed[j].targetId)
  }

  lemma {:induction false} ChosenRows(entries: seq<ImportEntry>, selected: set<string>)
    requires DistinctRows(entries)
    ensures DistinctRows(Filter(entries, Chosen(selected)))
  {
    if entries == [] {
    } else {
      ChosenRows(entries[1..], selected);
      FilterIn(entries[1..], Chosen(selected));
      var rest := Filter(entries[1..], Chosen(selected));
      assert forall i :: 0 <= i < |rest| ==> rest[i] in rest;
      assert forall e :: e in entries[1..] ==> RowKey(e) != RowKey(entries[0]);
    }
  }

  /** With no error on any selected row, the payload can be imported. */
  lemma NoErrorsImportable(entries: seq<ImportEntry>, selected: set<string>, ids: map<string, string>, existing: set<string>)
    requires DistinctRows(entries)
    requires forall k :: k in selected ==> ErrorOf(selected, ids, existing, k).None?
    ensures Importable(Confirmed(Filter(entries, Chosen(selected)), ids), existing)
  {
    var rows := Filter(entries, Chosen(selected));
    ChosenRows(entries, selected);
    FilterIn(entries, Chosen(selected));
    forall i | 0 <= i < |rows|
      ensures RowKey(rows[i]) in selected && Confirm(rows[i], ids).targetId == IdOf(ids, RowKey(rows[i]))
    {
      assert rows[i] in rows;
      assert IdOf(ids, RowKey(rows[i])) != "";
    }
    forall i, j | 0 <= i < j < |rows|
      ensures IdOf(ids, RowKey(rows[i])) != IdOf(ids, RowKey(rows[j]))
    {
      assert ErrorOf(selected, ids, existing, RowKey(rows[i])).None?;
    }
  }

  /** And when every selected row is listed and has an id, an importable
      payload means there is no error. */
  lemma ImportableNoErrors(entries: seq<ImportEntry>, selected: set<string>, ids: map<string, string>, existing: set<string>)
    requires forall k :: k in selected ==> k in ids && exists e :: e in entries && RowKey(e) == k
    requires Importable(Confirmed(Filter(entries, Chosen(selected)), ids), existing)
    ensures forall k :: k in selected ==> ErrorOf(selected, ids, existing, k).None?
  {
    var rows := Filter(entries, Chosen(selected));
    var confirmed := Confirmed(rows, ids);
    FilterIn(entries, Chosen(selected));
    forall k | k in selected
      ensures exists i :: 0 <= i < |rows| && RowKey(rows[i]) == k && confirmed[i].targetId == IdOf(ids, k)
    {
      var e :| e in entries && RowKey(e) == k;
      assert Chosen(selected)(e) && e in rows;
      var i :| 0 <= i < |rows| && rows[i] == e;
    }
  }
}
