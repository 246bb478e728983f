/** `${NAME}` references: the placeholder scan and the analysis of what is
    referenced and defined. */
module TemplateVarReferences {
  import opened Common
  import opened TemplateVars

  // ----- the placeholder scan -----

  /** `${NAME}` stands at s[i..j], not escaped by a backslash. */
  predicate RefAt(s: string, i: nat, j: nat) {
    && i + 2 < j < |s| && s[i] == '$' && s[i + 1] == '{' && s[j] == '}'
    && NameOk(s[i + 2..j]) && (i > 0 ==> s[i - 1] != '\\')
  }

  /** The end of the longest run of name characters from `k`. */
  function RunEnd(s: string, k: nat): (e: nat)
    requires k <= |s|
    ensures k <= e <= |s|
    ensures forall i :: k <= i < e ==> NameChar(s[i])
    ensures e < |s| ==> !NameChar(s[e])
    decreases |s| - k
  {
    if k < |s| && NameChar(s[k]) then RunEnd(s, k + 1) else k
  }

  /** One attempt of the pattern at `i`: look behind, `${`, the longest
      name, `}`. The end of the match, if it matches. */
  function MatchAt(s: string, i: nat): Option<nat>
    requires i < |s|
  {
    if i > 0 && s[i - 1] == '\\' then None
    else if i + 2 < |s| && s[i] == '$' && s[i + 1] == '{' && NameStart(s[i + 2]) then
      var e := RunEnd(s, i + 2);
      if e < |s| && s[e] == '}' then Some(e) else None
    else None
  }

  /** The greedy attempt finds the reference there is, and only that. */
  lemma MatchIsRef(s: string, i: nat, j: nat)
    requires i < |s|
    ensures MatchAt(s, i) == Some(j) <==> RefAt(s, i, j)
  {
    if RefAt(s, i, j) {
      var e := RunEnd(s, i + 2);
      assert forall k :: i + 2 <= k < j ==> s[k] == s[i + 2..j][k - i - 2];
      assert s[i + 2] == s[i + 2..j][0];
      assert !NameChar('}');
      assert e == j;
    }
    if MatchAt(s, i) == Some(j) {
      var name := s[i + 2..j];
      assert RunEnd(s, i + 2) == j && NameChar(s[i + 2]);
      assert forall k :: 0 <= k < |name| ==> NameChar(name[k]);
      assert RefAt(s, i, j);
    }
  }

  /** The name of the reference that starts at `i`, if one does. */
  ghost function NamesAt(s: string, i: nat): seq<string> {
    if j: nat :| RefAt(s, i, j) then [s[i + 2..j]] else []
  }

  /** The name at every position from `from` where a reference starts, in
      order. */
  ghost function RefsFrom(s: string, from: nat): seq<string>
    decreases |s| - from
  {
    if from >= |s| then [] else NamesAt(s, from) + RefsFrom(s, from + 1)
  }

  predicate NoDollar(s: string, from: nat, to: nat)
    requires from <= to <= |s|
  {
    forall k :: from <= k < to ==> s[k] != '$'
  }

  lemma {:induction false} NothingFrom(s: string, from: nat, to: nat)
    requires from <= to <= |s| && NoDollar(s, from, to)
    ensures RefsFrom(s, from) == RefsFrom(s, to)
    decreases |s| - from
  {
    if from == to {
    } else {
      NothingFrom(s, from + 1, to);
    }
  }

  lemma RefHasNoDollar(s: string, i: nat, j: nat)
    requires RefAt(s, i, j)
    ensures NoDollar(s, i + 1, j + 1)
  {
  }

  lemma NamesAtRef(s: string, i: nat, j: nat)
    requires RefAt(s, i, j)
    ensures NamesAt(s, i) == [s[i + 2..j]]
  {
  }

  lemma NamesAtNone(s: string, i: nat)
    requires i < |s| && MatchAt(s, i).None?
    ensures NamesAt(s, i) == []
  {
  }

  lemma EmitsAt(s: string, i: nat, j: nat)
    requires RefAt(s, i, j)
    ensures RefsFrom(s, i) == [s[i + 2..j]] + RefsFrom(s, i + 1)
  {
    NamesAtRef(s, i, j);
  }

  lemma EmitsNone(s: string, i: nat)
    requires i < |s| && NamesAt(s, i) == []
    ensures RefsFrom(s, i) == RefsFrom(s, i + 1)
  {
  }

  lemma NothingInside(s: string, i: nat, j: nat)
    requires RefAt(s, i, j)
    ensures RefsFrom(s, i + 1) == RefsFrom(s, j + 1)
  {
    RefHasNoDollar(s, i, j);
    NothingFrom(s, i + 1, j + 1);
  }

  /** No reference starts inside another. */
  lemma SkipsNothing(s: string, i: nat, j: nat)
    requires RefAt(s, i, j)
    ensures RefsFrom(s, i) == [s[i + 2..j]] + RefsFrom(s, j + 1)
  {
    EmitsAt(s, i, j);
    NothingInside(s, i, j);
  }

  /** Every name listed is a reference of the string ... */
  lemma {:induction false} RefsFromSound(s: string, from: nat, name: string) returns (i: nat, j: nat)
    requires name in RefsFrom(s, from)
    ensures from <= i && RefAt(s, i, j) && s[i + 2..j] == name
    decreases |s| - from
  {
    if name in NamesAt(s, from) {
      i := from;
      j :| RefAt(s, from, j) && NamesAt(s, from) == [s[from + 2..j]];
    } else {
      i, j := RefsFromSound(s, from + 1, name);
    }
  }

  /** ... and every reference is listed. */
  lemma {:induction false} RefsFromComplete(s: string, from: nat, i: nat, j: nat)
    requires from <= i && RefAt(s, i, j)
    ensures s[i + 2..j] in RefsFrom(s, from)
    decreases |s| - from
  {
    if i == from {
      NamesAtRef(s, i, j);
    } else {
      RefsFromComplete(s, from + 1, i, j);
    }
  }

  datatype Reference = Reference(name: string, location: string)

  function Located(names: seq<string>, location: string): seq<Reference> {
    seq(|names|, i requires 0 <= i < |names| => Reference(names[i], location))
  }

  lemma EmitStep(s: string, i: nat, j: nat, names: seq<string>)
    requires RefAt(s, i, j)
    ensures names + RefsFrom(s, i) == (names + [s[i + 2..j]]) + RefsFrom(s, j + 1)
  {
    SkipsNothing(s, i, j);
  }

  /** `findInValue`: the scan goes on after each match, and still emits, in
      order, the name at every position where a reference starts. */
  method FindInValue(value: string, location: string, out: seq<Reference>) returns (refs: seq<Reference>)
    ensures refs == out + Located(RefsFrom(value, 0), location)
    ensures |refs| == |out| + |RefsFrom(value, 0)| && refs[..|out|] == out
    ensures forall k :: 0 <= k < |RefsFrom(value, 0)| ==> refs[|out| + k] == Reference(RefsFrom(value, 0)[k], location)
  {
    var names: seq<string> := [];
    var i := 0;
    while i < |value|
      invariant 0 <= i <= |value|
      invariant names + RefsFrom(value, i) == RefsFrom(value, 0)
    {
      var m := MatchAt(value, i);
      if m.Some? {
        MatchIsRef(value, i, m.value);
        EmitStep(value, i, m.value, names);
        names := names + [value[i + 2..m.value]];
        i := m.value + 1;
      } else {
        NamesAtNone(value, i);
        EmitsNone(value, i);
        i := i + 1;
      }
    }
    assert names == RefsFrom(value, 0);
    refs := out + Located(names, location);
  }

  // ----- the analysis -----

  datatype RefInfo = RefInfo(count: nat, defined: bool)

  function Named(name: string): Reference -> bool {
    (r: Reference) => r.name == name
  }

  /** How many references name `name`. */
  function CountOf(refs: seq<Reference>, name: string): nat {
    |Filter(refs, Named(name))|
  }

  lemma CountOfAppend(refs: seq<Reference>, r: Reference, name: string)
    ensures CountOf(refs + [r], name) == CountOf(refs, name) + if r.name == name then 1 else 0
  {
    FilterAppend(refs, [r], Named(name));
  }

  /** The sum of all counts. */
  ghost function Total(m: map<string, RefInfo>): nat
    decreases |m|
  {
    if m == map[] then 0
    else
      var k :| k in m;
      m[k].count + Total(m - {k})
  }

  lemma {:induction false} TotalWithout(m: map<string, RefInfo>, k: string)
    requires k in m
    ensures Total(m) == m[k].count + Total(m - {k})
    decreases |m|
  {
    var j :| j in m && Total(m) == m[j].count + Total(m - {j});
    if j != k {
      TotalWithout(m - {j}, k);
      TotalWithout(m - {k}, j);
      assert m - {j} - {k} == m - {k} - {j};
    }
  }

  lemma TotalSet(m: map<string, RefInfo>, k: string, info: RefInfo)
    ensures Total(m[k := info]) == info.count + Total(m - {k})
  {
    TotalWithout(m[k := info], k);
    assert m[k := info] - {k} == m - {k};
  }

  function Undefined(defined: set<string>): Reference -> bool {
    (r: Reference) => r.name !in defined
  }

  ghost predicate TallyAt(byName: map<string, RefInfo>, refs: seq<Reference>, defined: set<string>, extra: set<string>, n: string) {
    && (n in byName <==> n in extra || CountOf(refs, n) > 0)
    && (n in byName ==> byName[n] == RefInfo(CountOf(refs, n), n in defined))
  }

  /** The map holds the count of every name referenced or in `extra`. */
  ghost predicate Tallies(byName: map<string, RefInfo>, refs: seq<Reference>, defined: set<string>, extra: set<string>) {
    forall n {:trigger TallyAt(byName, refs, defined, extra, n)} :: TallyAt(byName, refs, defined, extra, n)
  }

  function Info(byName: map<string, RefInfo>, name: string, defined: set<string>): RefInfo {
    if name in byName then byName[name] else RefInfo(0, name in defined)
  }

  lemma TallyStep(byName: map<string, RefInfo>, refs: seq<Reference>, defined: set<string>, ref: Reference)
    requires Tallies(byName, refs, defined, {})
    ensures var info := Info(byName, ref.name, defined);
      Tallies(byName[ref.name := info.(count := info.count + 1)], refs + [ref], defined, {})
  {
    var info := Info(byName, ref.name, defined);
    var next := byName[ref.name := info.(count := info.count + 1)];
    var longer := refs + [ref];
    forall n
      ensures TallyAt(next, longer, defined, {}, n)
    {
      assert TallyAt(byName, refs, defined, {}, n);
      CountOfAppend(refs, ref, n);
    }
  }

  lemma TotalStep(byName: map<string, RefInfo>, name: string, defined: set<string>)
    ensures var info := Info(byName, name, defined);
      Total(byName[name := info.(count := info.count + 1)]) == Total(byName) + 1
  {
    var info := Info(byName, name, defined);
    TotalSet(byName, name, info.(count := info.count + 1));
    if name in byName {
      TotalWithout(byName, name);
    } else {
      assert byName - {name} == byName;
    }
  }

  lemma ReferenceStep(byName: map<string, RefInfo>, refs: seq<Reference>, defined: set<string>, i: nat)
    requires i < |refs| && Tallies(byName, refs[..i], defined, {})
    ensures var info := Info(byName, refs[i].name, defined);
      var next := byName[refs[i].name := info.(count := info.count + 1)];
      Tallies(next, refs[..i + 1], defined, {}) && Total(next) == Total(byName) + 1
  {
    assert refs[..i + 1] == refs[..i] + [refs[i]];
    TallyStep(byName, refs[..i], defined, refs[i]);
    TotalStep(byName, refs[i].name, defined);
  }

  lemma UnresolvedStep(refs: seq<Reference>, defined: set<string>, i: nat)
    requires i < |refs|
    ensures Filter(refs[..i + 1], Undefined(defined)) ==
      Filter(refs[..i], Undefined(defined)) + if refs[i].name in defined then [] else [refs[i]]
  {
    assert refs[..i + 1] == refs[..i] + [refs[i]];
    FilterAppend(refs[..i], [refs[i]], Undefined(defined));
  }

  lemma DefinedStep(byName: map<string, RefInfo>, refs: seq<Reference>, defined: set<string>, extra: set<string>, name: string)
    requires Tallies(byName, refs, defined, extra) && name in defined
    ensures name in byName ==> Tallies(byName, refs, defined, extra + {name})
    ensures name !in byName ==> Tallies(byName[name := RefInfo(0, true)], refs, defined, extra + {name})
    ensures name !in byName ==> Total(byName[name := RefInfo(0, true)]) == Total(byName)
  {
    TotalSet(byName, name, RefInfo(0, true));
    var next := if name in byName then byName else byName[name := RefInfo(0, true)];
    var more := extra + {name};
    forall n
      ensures TallyAt(next, refs, defined, more, n)
    {
      assert TallyAt(byName, refs, defined, extra, n);
    }
    if name !in byName {
      assert byName - {name} == byName;
    }
  }

  /** The first loop. */
  method CountReferences(references: seq<Reference>, defined: set<string>)
    returns (byName: map<string, RefInfo>, unresolved: seq<Reference>)
    ensures Tallies(byName, references, defined, {}) && Total(byName) == |references|
    ensures unresolved == Filter(references, Undefined(defined))
  {
    byName, unresolved := map[], [];
    assert forall n :: TallyAt(byName, [], defined, {}, n);
    assert references[..0] == [];
    for i := 0 to |references|
      invariant Tallies(byName, references[..i], defined, {}) && Total(byName) == i
      invariant unresolved == Filter(references[..i], Undefined(defined))
    {
      var ref := references[i];
      ReferenceStep(byName, references, defined, i);
      UnresolvedStep(references, defined, i);
      assert TallyAt(byName, references[..i], defined, {}, ref.name);
      var existing := Info(byName, ref.name, defined);
      existing := existing.(count := existing.count + 1);
      byName := byName[ref.name := existing];
      if !existing.defined {
        unresolved := unresolved + [ref];
      }
    }
    assert references[..|references|] == references;
  }

  /** Every reference counts, exactly once: each count is the number of
      references of that name, all counts together are the references, and
      the unresolved ones are, in order, those not defined. */
  method AnalyseReferences(references: seq<Reference>, defined: set<string>)
    returns (byName: map<string, RefInfo>, unresolved: seq<Reference>)
    ensures forall n :: n in byName <==> n in defined || CountOf(references, n) > 0
    ensures forall n :: n in byName ==> byName[n] == RefInfo(CountOf(references, n), n in defined)
    ensures Total(byName) == |references|
    ensures unresolved == Filter(references, Undefined(defined))
  {
    byName, unresolved := CountReferences(references, defined);
    var todo := defined;
    assert defined - todo == {};
    while todo != {}
      invariant todo <= defined
      invariant Tallies(byName, references, defined, defined - todo) && Total(byName) == |references|
    {
      var name :| name in todo;
      DefinedStep(byName, references, defined, defined - todo, name);
      assert defined - todo + {name} == defined - (todo - {name});
      todo := todo - {name};
      if name !in byName {
        byName := byName[name := RefInfo(0, true)];
      }
    }
    forall n
      ensures n in byName <==> n in defined || CountOf(references, n) > 0
      ensures n in byName ==> byName[n] == RefInfo(CountOf(references, n), n in defined)
    {
      assert defined - {} == defined;
      assert TallyAt(byName, references, defined, defined, n);
    }
  }
}
