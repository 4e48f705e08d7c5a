// api/scripts/check_encrypted_data_exposure.py and api/scripts/cleanup_encrypted_history_data.py: finding
// encrypted-looking strings in stored JSON, and replacing them.

module JsonExposure {

  datatype Json =
    | Null | Bool(bool) | Number(real) | Str(text: string)
    | List(items: seq<Json>)
    | Dict(entries: seq<Entry>)

  datatype Entry = Entry(key: string, value: Json)

  /** One step of the way from the root of a value to a part of it. */
  datatype Step = Key(key: string) | Index(index: nat)

  /** A reported string, and where it was found. */
  datatype Finding = Finding(path: seq<Step>, text: string)

  /** Stands for `is_likely_encrypted_data`. */
  type Detector = string -> bool

  const MARKER := "[ENCRYPTED]"

  /** Python dicts have no key twice, at any depth. */
  ghost predicate Valid(j: Json)
    decreases j
  {
    match j
    case List(items) => forall i :: 0 <= i < |items| ==> Valid(items[i])
    case Dict(entries) =>
      && (forall i :: 0 <= i < |entries| ==> Valid(entries[i].value))
      && (forall i, k :: 0 <= i < k < |entries| ==> entries[i].key != entries[k].key)
    case _ => true
  }

  // ----- the checker -----------------------------------------------------------------------

  function Findings(j: Json, path: seq<Step>, looks: Detector): seq<Finding>
    decreases j, 0
  {
    match j
    case Str(text) => if looks(text) then [Finding(path, text)] else []
    case List(items) => ListFindings(items, 0, path, looks)
    case Dict(entries) => DictFindings(entries, 0, path, looks)
    case _ => []
  }

  function ListFindings(items: seq<Json>, from: nat, path: seq<Step>, looks: Detector): seq<Finding>
    requires from <= |items|
    decreases items, |items| - from
  {
    if from == |items| then []
    else Findings(items[from], path + [Index(from)], looks) + ListFindings(items, from + 1, path, looks)
  }

  function DictFindings(entries: seq<Entry>, from: nat, path: seq<Step>, looks: Detector): seq<Finding>
    requires from <= |entries|
    decreases entries, |entries| - from
  {
    if from == |entries| then []
    else Findings(entries[from].value, path + [Key(entries[from].key)], looks) + DictFindings(entries, from + 1, path, looks)
  }

  /** `check_json_field_for_encrypted_data`; the two loops are the methods below. */
  method CheckJsonField(j: Json, path: seq<Step>, looks: Detector) returns (issues: seq<Finding>)
    ensures issues == Findings(j, path, looks)
    decreases j, 0
  {
    issues := [];
    match j
    case Dict(entries) => issues := CheckDict(entries, path, looks);
    case List(items) => issues := CheckList(items, path, looks);
    case Str(text) =>
      if looks(text) {
        issues := [Finding(path, text)];
      }
    case _ =>
  }

  method CheckDict(entries: seq<Entry>, path: seq<Step>, looks: Detector) returns (issues: seq<Finding>)
    ensures issues == DictFindings(entries, 0, path, looks)
    decreases entries, 1
  {
    issues := [];
    for i := 0 to |entries|
      invariant issues + DictFindings(entries, i, path, looks) == DictFindings(entries, 0, path, looks)
    {
      var value, here := entries[i].value, path + [Key(entries[i].key)];
      Regroup(issues, Findings(value, here, looks), DictFindings(entries, i + 1, path, looks));
      if value.Str? && looks(value.text) {
        issues := issues + [Finding(here, value.text)];
      } else if value.Dict? || value.List? {
        var nested := CheckJsonField(value, here, looks);
        issues := issues + nested;
      }
    }
  }

  method CheckList(items: seq<Json>, path: seq<Step>, looks: Detector) returns (issues: seq<Finding>)
    ensures issues == ListFindings(items, 0, path, looks)
    decreases items, 1
  {
    issues := [];
    for i := 0 to |items|
      invariant issues + ListFindings(items, i, path, looks) == ListFindings(items, 0, path, looks)
    {
      var item, here := items[i], path + [Index(i)];
      Regroup(issues, Findings(item, here, looks), ListFindings(items, i + 1, path, looks));
      if item.Str? && looks(item.text) {
        issues := issues + [Finding(here, item.text)];
      } else if item.Dict? || item.List? {
        var nested := CheckJsonField(item, here, looks);
        issues := issues + nested;
      }
    }
  }

  lemma Regroup(first: seq<Finding>, second: seq<Finding>, third: seq<Finding>)
    ensures first + (second + third) == first + second + third
    ensures first + [] == first
  {
  }

  // ----- soundness and completeness --------------------------------------------------------

  /** The place of a step's target among its siblings, or none. */
  function Position(j: Json, step: Step): int
    ensures -1 <= Position(j, step)
    ensures j.Dict? ==> Position(j, step) < |j.entries|
    ensures j.Dict? && Position(j, step) >= 0 ==> Key(j.entries[Position(j, step)].key) == step
    ensures j.List? ==> Position(j, step) < |j.items|
    ensures j.List? && Position(j, step) >= 0 ==> step == Index(Position(j, step))
  {
    if j.Dict? && step.Key? then KeyPosition(j.entries, step.key)
    else if j.List? && step.Index? && step.index < |j.items| then step.index
    else -1
  }

  function KeyPosition(entries: seq<Entry>, key: string): (i: int)
    ensures -1 <= i < |entries|
    ensures i >= 0 ==> entries[i].key == key
    ensures i < 0 ==> forall k :: 0 <= k < |entries| ==> entries[k].key != key
  {
    if entries == [] then -1
    else if entries[|entries| - 1].key == key then |entries| - 1
    else KeyPosition(entries[..|entries| - 1], key)
  }

  predicate HasStep(j: Json, step: Step) {
    (j.Dict? || j.List?) && Position(j, step) >= 0
  }

  function Child(j: Json, step: Step): (child: Json)
    requires HasStep(j, step)
    ensures child < j
  {
    if j.Dict? then j.entries[Position(j, step)].value else j.items[Position(j, step)]
  }

  /** `path` leads from the root `j` to the string `text`. */
  predicate Leads(j: Json, path: seq<Step>, text: string) {
    if path == [] then j == Str(text)
    else HasStep(j, path[0]) && Leads(Child(j, path[0]), path[1..], text)
  }

  /** `p` comes before `q` when the value is read from left to right. */
  predicate Before(j: Json, p: seq<Step>, q: seq<Step>)
    decreases |p|
  {
    && p != [] && q != [] && HasStep(j, p[0]) && HasStep(j, q[0])
    && (if p[0] == q[0] then Before(Child(j, p[0]), p[1..], q[1..])
        else Position(j, p[0]) < Position(j, q[0]))
  }

  /** Findings below a prefix are the findings of the part itself, with the prefix put in front. */
  function Under(prefix: seq<Step>, findings: seq<Finding>): seq<Finding> {
    seq(|findings|, i requires 0 <= i < |findings| => Finding(prefix + findings[i].path, findings[i].text))
  }

  lemma UnderBoth(prefix: seq<Step>, first: seq<Finding>, second: seq<Finding>)
    ensures Under(prefix, first + second) == Under(prefix, first) + Under(prefix, second)
  {
  }

  lemma UnderTwice(outer: seq<Step>, inner: seq<Step>, findings: seq<Finding>)
    ensures Under(outer, Under(inner, findings)) == Under(outer + inner, findings)
  {
    forall i | 0 <= i < |findings|
      ensures outer + (inner + findings[i].path) == outer + inner + findings[i].path
    {
    }
  }

  lemma {:induction false} FindingsMove(j: Json, path: seq<Step>, looks: Detector)
    ensures Findings(j, path, looks) == Under(path, Findings(j, [], looks))
    decreases j, 0
  {
    match j
    case Str(text) => assert path + [] == path;
    case List(items) => ListFindingsMove(items, 0, path, looks);
    case Dict(entries) => DictFindingsMove(entries, 0, path, looks);
    case _ =>
  }

  lemma {:induction false} ListFindingsMove(items: seq<Json>, from: nat, path: seq<Step>, looks: Detector)
    requires from <= |items|
    ensures ListFindings(items, from, path, looks) == Under(path, ListFindings(items, from, [], looks))
    decreases items, |items| - from
  {
    if from < |items| {
      var step := [Index(from)];
      FindingsMove(items[from], path + step, looks);
      FindingsMove(items[from], [] + step, looks);
      assert [] + step == step;
      UnderTwice(path, step, Findings(items[from], [], looks));
      ListFindingsMove(items, from + 1, path, looks);
      UnderBoth(path, Findings(items[from], step, looks), ListFindings(items, from + 1, [], looks));
    }
  }

  lemma {:induction false} DictFindingsMove(entries: seq<Entry>, from: nat, path: seq<Step>, looks: Detector)
    requires from <= |entries|
    ensures DictFindings(entries, from, path, looks) == Under(path, DictFindings(entries, from, [], looks))
    decreases entries, |entries| - from
  {
    if from < |entries| {
      var value, step := entries[from].value, [Key(entries[from].key)];
      FindingsMove(value, path + step, looks);
      FindingsMove(value, [] + step, looks);
      assert [] + step == step;
      UnderTwice(path, step, Findings(value, [], looks));
      DictFindingsMove(entries, from + 1, path, looks);
      UnderBoth(path, Findings(value, step, looks), DictFindings(entries, from + 1, [], looks));
    }
  }

  lemma InUnder(step: Step, findings: seq<Finding>, f: Finding)
    ensures f in Under([step], findings)
       <==> f.path != [] && f.path[0] == step && Finding(f.path[1..], f.text) in findings
  {
    var under := Under([step], findings);
    if f in under {
      var i :| 0 <= i < |under| && under[i] == f;
      assert f.path[1..] == findings[i].path;
    }
    if f.path != [] && f.path[0] == step && Finding(f.path[1..], f.text) in findings {
      var i :| 0 <= i < |findings| && findings[i] == Finding(f.path[1..], f.text);
      assert [step] + f.path[1..] == f.path;
      assert under[i] == f;
    }
  }

  lemma {:induction false} InListFindings(items: seq<Json>, from: nat, looks: Detector, f: Finding)
    requires from <= |items|
    ensures f in ListFindings(items, from, [], looks)
       <==> f.path != [] && f.path[0].Index? && from <= f.path[0].index < |items|
            && Finding(f.path[1..], f.text) in Findings(items[f.path[0].index], [], looks)
    decreases |items| - from
  {
    if from < |items| {
      assert [] + [Index(from)] == [Index(from)];
      FindingsMove(items[from], [Index(from)], looks);
      InUnder(Index(from), Findings(items[from], [], looks), f);
      InListFindings(items, from + 1, looks, f);
    }
  }

  lemma {:induction false} InDictFindings(entries: seq<Entry>, from: nat, looks: Detector, f: Finding, at: int)
    requires from <= |entries| && -1 <= at < |entries|
    requires forall i, k :: 0 <= i < k < |entries| ==> entries[i].key != entries[k].key
    requires at >= 0 ==> f.path != [] && f.path[0] == Key(entries[at].key)
    requires at < 0 ==> f.path == [] || forall i :: 0 <= i < |entries| ==> f.path[0] != Key(entries[i].key)
    ensures f in DictFindings(entries, from, [], looks)
       <==> from <= at && Finding(f.path[1..], f.text) in Findings(entries[at].value, [], looks)
    decreases |entries| - from
  {
    if from < |entries| {
      var step := Key(entries[from].key);
      assert [] + [step] == [step];
      FindingsMove(entries[from].value, [step], looks);
      InUnder(step, Findings(entries[from].value, [], looks), f);
      InDictFindings(entries, from + 1, looks, f, at);
    }
  }

  /** A string is reported with a path exactly when the path leads to it and it looks encrypted. */
  lemma {:induction false} SoundAndComplete(j: Json, looks: Detector, f: Finding)
    requires Valid(j)
    ensures f in Findings(j, [], looks) <==> Leads(j, f.path, f.text) && looks(f.text)
    decreases j
  {
    if j.List? {
      InListFindings(j.items, 0, looks, f);
      if f.path != [] && HasStep(j, f.path[0]) {
        SoundAndComplete(Child(j, f.path[0]), looks, Finding(f.path[1..], f.text));
      }
    } else if j.Dict? {
      var at := if f.path == [] then -1 else Position(j, f.path[0]);
      InDictFindings(j.entries, 0, looks, f, at);
      if at >= 0 {
        SoundAndComplete(Child(j, f.path[0]), looks, Finding(f.path[1..], f.text));
      }
    }
  }

  /** The findings stand in reading order of the value `j`. */
  ghost predicate InOrder(j: Json, findings: seq<Finding>) {
    forall a, b :: 0 <= a < b < |findings| ==> Before(j, findings[a].path, findings[b].path)
  }

  /** All findings start at a child of `j` at position `from` or later. */
  ghost predicate StartFrom(j: Json, from: nat, findings: seq<Finding>) {
    forall a :: 0 <= a < |findings| ==>
      findings[a].path != [] && HasStep(j, findings[a].path[0]) && from <= Position(j, findings[a].path[0])
  }

  lemma FindingsOfChildFirst(j: Json, from: nat, step: Step, child: seq<Finding>, rest: seq<Finding>)
    requires HasStep(j, step) && Position(j, step) == from
    requires InOrder(Child(j, step), child)
    requires StartFrom(j, from + 1, rest) && InOrder(j, rest)
    ensures StartFrom(j, from, Under([step], child) + rest) && InOrder(j, Under([step], child) + rest)
  {
    var under := Under([step], child);
    var all := under + rest;
    assert forall a :: 0 <= a < |child| ==> under[a].path[0] == step && under[a].path[1..] == child[a].path;
    forall a, b | 0 <= a < b < |all| ensures Before(j, all[a].path, all[b].path) {
      if b < |child| {
        assert Before(Child(j, step), child[a].path, child[b].path);
      } else if a >= |child| {
        assert Before(j, rest[a - |child|].path, rest[b - |child|].path);
      }
    }
  }

  lemma {:induction false} ListInOrder(j: Json, from: nat, looks: Detector)
    requires j.List? && Valid(j) && from <= |j.items|
    requires forall i :: 0 <= i < |j.items| ==> InOrder(j.items[i], Findings(j.items[i], [], looks))
    ensures StartFrom(j, from, ListFindings(j.items, from, [], looks))
    ensures InOrder(j, ListFindings(j.items, from, [], looks))
    decreases |j.items| - from
  {
    if from < |j.items| {
      var step := Index(from);
      assert [] + [step] == [step];
      FindingsMove(j.items[from], [step], looks);
      ListInOrder(j, from + 1, looks);
      FindingsOfChildFirst(j, from, step, Findings(j.items[from], [], looks), ListFindings(j.items, from + 1, [], looks));
    }
  }

  lemma {:induction false} DictInOrder(j: Json, from: nat, looks: Detector)
    requires j.Dict? && Valid(j) && from <= |j.entries|
    requires forall i :: 0 <= i < |j.entries| ==> InOrder(j.entries[i].value, Findings(j.entries[i].value, [], looks))
    ensures StartFrom(j, from, DictFindings(j.entries, from, [], looks))
    ensures InOrder(j, DictFindings(j.entries, from, [], looks))
    decreases |j.entries| - from
  {
    if from < |j.entries| {
      var step := Key(j.entries[from].key);
      assert [] + [step] == [step];
      assert Position(j, step) == from;
      FindingsMove(j.entries[from].value, [step], looks);
      DictInOrder(j, from + 1, looks);
      FindingsOfChildFirst(j, from, step, Findings(j.entries[from].value, [], looks),
                           DictFindings(j.entries, from + 1, [], looks));
    }
  }

  /** The strings are reported in reading order, hence each one once. */
  lemma {:induction false} ReportedInOrder(j: Json, looks: Detector)
    requires Valid(j)
    ensures InOrder(j, Findings(j, [], looks))
    decreases j
  {
    match j
    case List(items) =>
      forall i | 0 <= i < |items| ensures InOrder(items[i], Findings(items[i], [], looks)) {
        ReportedInOrder(items[i], looks);
      }
      ListInOrder(j, 0, looks);
    case Dict(entries) =>
      forall i | 0 <= i < |entries| ensures InOrder(entries[i].value, Findings(entries[i].value, [], looks)) {
        ReportedInOrder(entries[i].value, looks);
      }
      DictInOrder(j, 0, looks);
    case _ =>
  }

  lemma {:induction false} BeforeIsStrict(j: Json, p: seq<Step>)
    ensures !Before(j, p, p)
    decreases |p|
  {
    if p != [] && HasStep(j, p[0]) {
      BeforeIsStrict(Child(j, p[0]), p[1..]);
    }
  }

  /** No string is reported twice. */
  lemma ReportedOnce(j: Json, looks: Detector, a: nat, b: nat)
    requires Valid(j) && a < b < |Findings(j, [], looks)|
    ensures Findings(j, [], looks)[a].path != Findings(j, [], looks)[b].path
  {
    ReportedInOrder(j, looks);
    BeforeIsStrict(j, Findings(j, [], looks)[a].path);
  }

  // ----- the sanitiser ---------------------------------------------------------------------

  function Sanitize(j: Json, looks: Detector): Json
    decreases j, 0
  {
    if !j.Dict? then j
    else Dict(seq(|j.entries|, i requires 0 <= i < |j.entries| =>
           Entry(j.entries[i].key, SanitizeValue(j.entries[i].value, looks))))
  }

  function SanitizeValue(value: Json, looks: Detector): Json
    decreases value, 1
  {
    if value.Str? && looks(value.text) then Str(MARKER)
    else if value.Dict? then Sanitize(value, looks)
    else value
  }

  lemma SanitizedEntry(j: Json, i: nat, looks: Detector)
    requires j.Dict? && i < |j.entries|
    ensures Sanitize(j, looks).entries[i] == Entry(j.entries[i].key, SanitizeValue(j.entries[i].value, looks))
    ensures j.entries[i].value.Dict? ==> Sanitize(j, looks).entries[i].value == Sanitize(j.entries[i].value, looks)
  {
  }

  /** `sanitize_json_field` */
  method SanitizeJsonField(value: Json, looks: Detector) returns (result: Json)
    ensures result == Sanitize(value, looks)
    decreases value
  {
    if !value.Dict? {
      return value;
    }
    var sanitized: seq<Entry> := [];
    for i := 0 to |value.entries|
      invariant |sanitized| == i
      invariant forall k :: 0 <= k < i ==> sanitized[k] == Sanitize(value, looks).entries[k]
    {
      var entry := value.entries[i];
      if entry.value.Str? && looks(entry.value.text) {
        sanitized := sanitized + [Entry(entry.key, Str(MARKER))];
      } else if entry.value.Dict? {
        var nested := SanitizeJsonField(entry.value, looks);
        sanitized := sanitized + [Entry(entry.key, nested)];
      } else {
        sanitized := sanitized + [entry];
      }
    }
    return Dict(sanitized);
  }

  predicate ThroughList(path: seq<Step>, from: nat) {
    exists i :: from <= i < |path| && path[i].Index?
  }

  /** The findings whose path passes through a list after its first `from` steps, in the same order. */
  function Hidden(findings: seq<Finding>, from: nat): seq<Finding> {
    if |findings| == 0 then []
    else (if ThroughList(findings[0].path, from) then [findings[0]] else []) + Hidden(findings[1..], from)
  }

  lemma {:induction false} HiddenBoth(first: seq<Finding>, second: seq<Finding>, from: nat)
    ensures Hidden(first + second, from) == Hidden(first, from) + Hidden(second, from)
  {
    if |first| == 0 {
      assert first + second == second;
    } else {
      HiddenBoth(first[1..], second, from);
      Regroup(if ThroughList(first[0].path, from) then [first[0]] else [], Hidden(first[1..], from), Hidden(second, from));
      assert (first + second)[0] == first[0] && (first + second)[1..] == first[1..] + second;
    }
  }

  lemma {:induction false} AllHidden(findings: seq<Finding>, from: nat)
    requires forall i :: 0 <= i < |findings| ==> ThroughList(findings[i].path, from)
    ensures Hidden(findings, from) == findings
  {
    if findings != [] {
      AllHidden(findings[1..], from);
    }
  }

  /** A dict key is no list step, so it does not matter whether it is looked at. */
  lemma {:induction false} HiddenBelowKey(findings: seq<Finding>, path: seq<Step>, key: string)
    requires forall i :: 0 <= i < |findings| ==> path + [Key(key)] <= findings[i].path
    ensures Hidden(findings, |path|) == Hidden(findings, |path| + 1)
  {
    if findings != [] {
      assert findings[0].path[|path|] == (path + [Key(key)])[|path|] == Key(key);
      assert ThroughList(findings[0].path, |path|) <==> ThroughList(findings[0].path, |path| + 1);
      HiddenBelowKey(findings[1..], path, key);
    }
  }

  lemma FindingsBelow(j: Json, path: seq<Step>, looks: Detector)
    ensures forall i :: 0 <= i < |Findings(j, path, looks)| ==> path <= Findings(j, path, looks)[i].path
  {
    FindingsMove(j, path, looks);
  }

  lemma {:induction false} ListFindingsHidden(items: seq<Json>, from: nat, path: seq<Step>, looks: Detector)
    requires from <= |items|
    ensures forall i :: 0 <= i < |ListFindings(items, from, path, looks)| ==>
              path <= ListFindings(items, from, path, looks)[i].path
              && ThroughList(ListFindings(items, from, path, looks)[i].path, |path|)
    decreases |items| - from
  {
    if from < |items| {
      var here := path + [Index(from)];
      var first := Findings(items[from], here, looks);
      FindingsBelow(items[from], here, looks);
      forall i | 0 <= i < |first| ensures path <= first[i].path && ThroughList(first[i].path, |path|) {
        assert first[i].path[|path|] == here[|path|] == Index(from);
      }
      ListFindingsHidden(items, from + 1, path, looks);
    }
  }

  /**
   * The checker, run on a sanitised dict, reports exactly the strings that sit inside a list, in the
   * order it reported them before; none at all for a value without lists.
   */
  lemma {:induction false} OnlyListsStayExposed(j: Json, path: seq<Step>, looks: Detector)
    requires j.Dict? && !looks(MARKER)
    ensures Findings(Sanitize(j, looks), path, looks) == Hidden(Findings(j, path, looks), |path|)
    decreases j, 1, 0
  {
    EntriesStayExposed(j, 0, path, looks);
  }

  lemma {:induction false} EntriesStayExposed(j: Json, from: nat, path: seq<Step>, looks: Detector)
    requires j.Dict? && !looks(MARKER) && from <= |j.entries|
    ensures DictFindings(Sanitize(j, looks).entries, from, path, looks)
         == Hidden(DictFindings(j.entries, from, path, looks), |path|)
    decreases j, 0, |j.entries| - from
  {
    if from < |j.entries| {
      var key, value := j.entries[from].key, j.entries[from].value;
      var here := path + [Key(key)];
      var first, rest := Findings(value, here, looks), DictFindings(j.entries, from + 1, path, looks);
      EntriesStayExposed(j, from + 1, path, looks);
      HiddenBoth(first, rest, |path|);
      FindingsBelow(value, here, looks);
      HiddenBelowKey(first, path, key);
      match value
      case Str(text) =>
        assert here[|path|] == Key(key);
        assert !ThroughList(here, |here|);
      case Dict(_) =>
        OnlyListsStayExposed(value, here, looks);
      case List(items) =>
        ListFindingsHidden(items, 0, here, looks);
        assert first == ListFindings(items, 0, here, looks);
        AllHidden(first, |here|);
      case _ =>
    }
  }

  /** Sanitising twice is sanitising once. */
  lemma {:induction false} SanitizeIdempotent(j: Json, looks: Detector)
    requires !looks(MARKER)
    ensures Sanitize(Sanitize(j, looks), looks) == Sanitize(j, looks)
    decreases j
  {
    if j.Dict? {
      var once := Sanitize(j, looks);
      forall i | 0 <= i < |j.entries|
        ensures Sanitize(once, looks).entries[i] == once.entries[i]
      {
        SanitizedEntry(j, i, looks);
        SanitizedEntry(once, i, looks);
        if j.entries[i].value.Dict? {
          SanitizeIdempotent(j.entries[i].value, looks);
        }
      }
      assert Sanitize(once, looks).entries == once.entries;
    }
  }

  predicate Reaches(j: Json, path: seq<Step>) {
    path == [] || (HasStep(j, path[0]) && Reaches(Child(j, path[0]), path[1..]))
  }

  function PartAt(j: Json, path: seq<Step>): Json
    requires Reaches(j, path)
  {
    if path == [] then j else PartAt(Child(j, path[0]), path[1..])
  }

  lemma {:induction false} SameKeysSamePositions(entries1: seq<Entry>, entries2: seq<Entry>, key: string)
    requires |entries1| == |entries2| && forall i :: 0 <= i < |entries1| ==> entries1[i].key == entries2[i].key
    ensures KeyPosition(entries1, key) == KeyPosition(entries2, key)
  {
    if entries1 != [] {
      SameKeysSamePositions(entries1[..|entries1| - 1], entries2[..|entries2| - 1], key);
    }
  }

  /**
   * The sanitised dict has the same keys at every level, and below them everything is as before except
   * the encrypted-looking strings outside lists, which have become the marker.
   */
  lemma {:induction false} SanitizeKeepsTheRest(j: Json, path: seq<Step>, looks: Detector)
    requires j.Dict? && path != [] && path[0].Key?
    ensures Reaches(Sanitize(j, looks), path) <==> Reaches(j, path)
    ensures Reaches(j, path) ==>
              PartAt(Sanitize(j, looks), path)
              == if ThroughList(path, 0) then PartAt(j, path) else SanitizeValue(PartAt(j, path), looks)
    decreases j
  {
    var clean, rest := Sanitize(j, looks), path[1..];
    SameKeysSamePositions(j.entries, clean.entries, path[0].key);
    assert HasStep(clean, path[0]) <==> HasStep(j, path[0]);
    if HasStep(j, path[0]) {
      var child := Child(j, path[0]);
      assert Child(clean, path[0]) == SanitizeValue(child, looks);
      FirstKeyIsNoList(path);
      if rest == [] {
        assert Reaches(child, rest) && Reaches(SanitizeValue(child, looks), rest);
      } else if child.Dict? && rest[0].Key? {
        SanitizeKeepsTheRest(child, rest, looks);
      } else if child.List? {
        assert SanitizeValue(child, looks) == child;
        assert Reaches(child, rest) ==> rest[0].Index?;
      } else {
        assert !HasStep(child, rest[0]) && !HasStep(SanitizeValue(child, looks), rest[0]);
      }
      assert Reaches(clean, path) <==> Reaches(SanitizeValue(child, looks), rest);
      assert Reaches(j, path) <==> Reaches(child, rest);
    }
  }

  lemma FirstKeyIsNoList(path: seq<Step>)
    requires path != [] && path[0].Key?
    ensures ThroughList(path, 0) <==> ThroughList(path[1..], 0)
  {
    if ThroughList(path, 0) {
      var i :| 0 <= i < |path| && path[i].Index?;
      assert path[1..][i - 1].Index?;
    }
  }

  // ----- the audit-log pass ----------------------------------------------------------------

  predicate NeedsCleaning(value: Json, looks: Detector) {
    (value.Str? && looks(value.text)) || HasDirect(value, looks)
  }

  /** A dict with an encrypted-looking string directly among its values. */
  predicate HasDirect(value: Json, looks: Detector) {
    value.Dict? && exists i :: 0 <= i < |value.entries| && value.entries[i].value.Str? && looks(value.entries[i].value.text)
  }

  function CleanValue(value: Json, looks: Detector): Json {
    if NeedsCleaning(value, looks) then SanitizeValue(value, looks) else value
  }

  function CleanDetails(details: Json, looks: Detector): Json {
    if !details.Dict? then details
    else Dict(seq(|details.entries|, i requires 0 <= i < |details.entries| =>
           Entry(details.entries[i].key, CleanValue(details.entries[i].value, looks))))
  }

  /** `is_encrypted_json_field` */
  method IsEncryptedJsonField(value: Json, looks: Detector) returns (found: bool)
    ensures found == HasDirect(value, looks)
  {
    if !value.Dict? {
      return false;
    }
    for i := 0 to |value.entries|
      invariant forall k :: 0 <= k < i ==> !(value.entries[k].value.Str? && looks(value.entries[k].value.text))
    {
      if value.entries[i].value.Str? && looks(value.entries[i].value.text) {
        return true;
      }
    }
    return false;
  }

  /** A dict that was counted as needing a cleaning does change. */
  lemma CleaningChanges(value: Json, looks: Detector)
    requires !looks(MARKER)
    ensures NeedsCleaning(value, looks) <==> CleanValue(value, looks) != value
    ensures CleanValue(CleanValue(value, looks), looks) == CleanValue(value, looks)
  {
    if HasDirect(value, looks) {
      var i :| 0 <= i < |value.entries| && value.entries[i].value.Str? && looks(value.entries[i].value.text);
      var clean := Sanitize(value, looks);
      SanitizedEntry(value, i, looks);
      assert clean.entries[i].value == Str(MARKER) != value.entries[i].value;
      forall k | 0 <= k < |clean.entries|
        ensures !(clean.entries[k].value.Str? && looks(clean.entries[k].value.text))
      {
        SanitizedEntry(value, k, looks);
      }
      assert !HasDirect(clean, looks);
    }
  }

  /** A record's details change exactly when one of its fields needs cleaning, and a second pass changes nothing. */
  lemma SecondPassIsIdle(details: Json, looks: Detector)
    requires details.Dict? && !looks(MARKER)
    ensures CleanDetails(details, looks) != details
       <==> exists i :: 0 <= i < |details.entries| && NeedsCleaning(details.entries[i].value, looks)
    ensures CleanDetails(CleanDetails(details, looks), looks) == CleanDetails(details, looks)
  {
    var once := CleanDetails(details, looks);
    forall i | 0 <= i < |details.entries|
      ensures NeedsCleaning(details.entries[i].value, looks) <==> once.entries[i] != details.entries[i]
      ensures CleanDetails(once, looks).entries[i] == once.entries[i]
    {
      CleaningChanges(details.entries[i].value, looks);
    }
    assert CleanDetails(once, looks).entries == once.entries;
    if forall i :: 0 <= i < |details.entries| ==> !NeedsCleaning(details.entries[i].value, looks) {
      assert once.entries == details.entries;
    }
  }

  /** A dict that the sanitiser would change, but that has no encrypted-looking string directly among its values. */
  predicate HasDeepOnly(value: Json, looks: Detector) {
    value.Dict? && Sanitize(value, looks) != value && !HasDirect(value, looks)
  }

  lemma PassDiffersIff(details: Json, looks: Detector)
    requires details.Dict? && !looks(MARKER)
    ensures CleanDetails(details, looks) == Sanitize(details, looks)
       <==> forall i :: 0 <= i < |details.entries| ==> !HasDeepOnly(details.entries[i].value, looks)
  {
    var pass, full := CleanDetails(details, looks), Sanitize(details, looks);
    forall i | 0 <= i < |details.entries|
      ensures pass.entries[i] == full.entries[i]
         <==> !HasDeepOnly(details.entries[i].value, looks)
    {
      SanitizedEntry(details, i, looks);
      CleaningChanges(details.entries[i].value, looks);
    }
    if forall i :: 0 <= i < |details.entries| ==> pass.entries[i] == full.entries[i] {
      assert pass.entries == full.entries;
    }
  }

  predicate KeysOnly(path: seq<Step>) {
    forall i :: 0 <= i < |path| ==> path[i].Key?
  }

  lemma {:induction false} HiddenIsFewer(findings: seq<Finding>, f: Finding)
    ensures |Hidden(findings, 0)| <= |findings|
    ensures f in findings && KeysOnly(f.path) ==> |Hidden(findings, 0)| < |findings|
  {
    if findings != [] {
      HiddenIsFewer(findings[1..], f);
    }
  }

  /** A string reached by keys only, which the sanitiser replaces. */
  ghost predicate ReachedByKeys(j: Json, looks: Detector, f: Finding) {
    KeysOnly(f.path) && f in Findings(j, [], looks)
  }

  lemma FoundBelowKey(j: Json, i: nat, looks: Detector, f: Finding)
    requires j.Dict? && Valid(j) && i < |j.entries| && f.path != [] && f.path[0] == Key(j.entries[i].key)
    ensures f in Findings(j, [], looks) <==> Finding(f.path[1..], f.text) in Findings(j.entries[i].value, [], looks)
  {
    assert Position(j, f.path[0]) == i;
    SoundAndComplete(j, looks, f);
    SoundAndComplete(j.entries[i].value, looks, Finding(f.path[1..], f.text));
  }

  /** What the sanitiser changes is reported by the checker with a path of keys. */
  lemma {:induction false} ChangedIsReported(j: Json, looks: Detector) returns (f: Finding)
    requires j.Dict? && Valid(j) && Sanitize(j, looks) != j
    ensures ReachedByKeys(j, looks, f) && f.path != []
    decreases j
  {
    var clean := Sanitize(j, looks);
    var i := ChangedEntry(j, looks);
    var key, value := j.entries[i].key, j.entries[i].value;
    SanitizedEntry(j, i, looks);
    if value.Str? {
      f := Finding([Key(key)], value.text);
      assert f.path[1..] == [];
    } else {
      var below := ChangedIsReported(value, looks);
      f := Finding([Key(key)] + below.path, below.text);
      assert f.path[1..] == below.path;
    }
    FoundBelowKey(j, i, looks, f);
  }

  lemma ChangedEntry(j: Json, looks: Detector) returns (i: nat)
    requires j.Dict? && Sanitize(j, looks) != j
    ensures i < |j.entries| && Sanitize(j, looks).entries[i] != j.entries[i]
  {
    var clean := Sanitize(j, looks);
    assert clean.entries != j.entries;
    i :| 0 <= i < |j.entries| && clean.entries[i] != j.entries[i];
  }

  lemma ReportedIsChanged(j: Json, looks: Detector, f: Finding)
    requires j.Dict? && !looks(MARKER) && ReachedByKeys(j, looks, f)
    ensures Sanitize(j, looks) != j
  {
    OnlyListsStayExposed(j, [], looks);
    HiddenIsFewer(Findings(j, [], looks), f);
  }

  /** A field holds an encrypted-looking string directly exactly when one is reported two keys deep. */
  lemma DirectIsTwoKeysDeep(details: Json, i: nat, looks: Detector)
    requires details.Dict? && Valid(details) && i < |details.entries|
    ensures HasDirect(details.entries[i].value, looks)
       <==> exists key, text :: Finding([Key(details.entries[i].key), Key(key)], text) in Findings(details, [], looks)
  {
    var first, value := details.entries[i].key, details.entries[i].value;
    if HasDirect(value, looks) {
      var k :| 0 <= k < |value.entries| && value.entries[k].value.Str? && looks(value.entries[k].value.text);
      TwoKeysDeep(details, i, looks, value.entries[k].key, value.entries[k].value.text);
      assert Position(value, Key(value.entries[k].key)) == k;
      assert Finding([Key(first), Key(value.entries[k].key)], value.entries[k].value.text) in Findings(details, [], looks);
    }
    if key, text :| Finding([Key(first), Key(key)], text) in Findings(details, [], looks) {
      TwoKeysDeep(details, i, looks, key, text);
      assert value.entries[Position(value, Key(key))].value == Str(text);
    }
  }

  lemma TwoKeysDeep(details: Json, i: nat, looks: Detector, key: string, text: string)
    requires details.Dict? && Valid(details) && i < |details.entries|
    ensures var value := details.entries[i].value;
            Finding([Key(details.entries[i].key), Key(key)], text) in Findings(details, [], looks)
            <==> value.Dict? && HasStep(value, Key(key)) && Child(value, Key(key)) == Str(text) && looks(text)
  {
    var value, f := details.entries[i].value, Finding([Key(details.entries[i].key), Key(key)], text);
    assert f.path[1..] == [Key(key)] && [Key(key)][1..] == [];
    FoundBelowKey(details, i, looks, f);
    SoundAndComplete(value, looks, Finding([Key(key)], text));
  }

  /** A reported string, three or more keys deep, whose field has none that is reported two keys deep. */
  ghost predicate Overlooked(details: Json, looks: Detector, f: Finding) {
    && ReachedByKeys(details, looks, f) && |f.path| > 2
    && forall key, text :: Finding([f.path[0], Key(key)], text) !in Findings(details, [], looks)
  }

  lemma TwoKeysOrNot(f: Finding)
    requires KeysOnly(f.path) && f.path != []
    ensures |f.path| != 2 || exists key :: f == Finding([f.path[0], Key(key)], f.text)
  {
    if |f.path| == 2 {
      assert f.path == [f.path[0], Key(f.path[1].key)];
    }
  }

  lemma DeepOnlyIff(details: Json, i: nat, looks: Detector)
    requires details.Dict? && Valid(details) && i < |details.entries| && !looks(MARKER)
    ensures HasDeepOnly(details.entries[i].value, looks)
       <==> exists f :: Overlooked(details, looks, f) && f.path[0] == Key(details.entries[i].key)
  {
    var key, value := details.entries[i].key, details.entries[i].value;
    DirectIsTwoKeysDeep(details, i, looks);
    if HasDeepOnly(value, looks) {
      var below := ChangedIsReported(value, looks);
      var f := Finding([Key(key)] + below.path, below.text);
      assert f.path[1..] == below.path;
      FoundBelowKey(details, i, looks, f);
      TwoKeysOrNot(f);
      assert Overlooked(details, looks, f);
    }
    if f :| Overlooked(details, looks, f) && f.path[0] == Key(key) {
      FoundBelowKey(details, i, looks, f);
      var below := Finding(f.path[1..], f.text);
      SoundAndComplete(value, looks, below);
      assert below.path[0].Key?;
      ReportedIsChanged(value, looks, below);
    }
  }

  /**
   * The pass does less than the full sanitiser: the two agree exactly when every string that the checker
   * reports three or more keys deep has one reported two keys deep in the same field.
   */
  lemma PassMissesDeepStrings(details: Json, looks: Detector)
    requires details.Dict? && Valid(details) && !looks(MARKER)
    ensures CleanDetails(details, looks) == Sanitize(details, looks)
       <==> forall f :: f in Findings(details, [], looks) && KeysOnly(f.path) && |f.path| > 2 ==>
              exists key, text :: Finding([f.path[0], Key(key)], text) in Findings(details, [], looks)
  {
    PassDiffersIff(details, looks);
    forall i | 0 <= i < |details.entries|
      ensures HasDeepOnly(details.entries[i].value, looks)
         <==> exists f :: Overlooked(details, looks, f) && f.path[0] == Key(details.entries[i].key)
    {
      DeepOnlyIff(details, i, looks);
    }
    forall f
      ensures Overlooked(details, looks, f) <==>
                f in Findings(details, [], looks) && KeysOnly(f.path) && |f.path| > 2
                && !(exists key, text :: Finding([f.path[0], Key(key)], text) in Findings(details, [], looks))
    {
    }
    forall f | Overlooked(details, looks, f)
      ensures exists i :: 0 <= i < |details.entries| && HasDeepOnly(details.entries[i].value, looks)
    {
      SoundAndComplete(details, looks, f);
      var i := Position(details, f.path[0]);
      DeepOnlyIff(details, i, looks);
    }
  }

  /** A string in a dict in a dict in a field is overlooked, and still reported after the pass. */
  lemma DeepStringExample(looks: Detector)
    requires looks("x") && !looks(MARKER)
    ensures var details := Dict([Entry("a", Dict([Entry("b", Dict([Entry("c", Str("x"))]))]))]);
            && CleanDetails(details, looks) == details != Sanitize(details, looks)
            && Finding([Key("a"), Key("b"), Key("c")], "x") in Findings(CleanDetails(details, looks), [], looks)
  {
    var inner := Dict([Entry("c", Str("x"))]);
    var middle := Dict([Entry("b", inner)]);
    var details := Dict([Entry("a", middle)]);
    var f := Finding([Key("a"), Key("b"), Key("c")], "x");
    assert !HasDirect(middle, looks);
    assert CleanDetails(details, looks).entries == details.entries;
    assert f.path[1..] == [Key("b"), Key("c")] && f.path[1..][1..] == [Key("c")] && [Key("c")][1..] == [];
    assert Leads(inner, [Key("c")], "x");
    assert Leads(middle, [Key("b"), Key("c")], "x");
    assert Leads(details, f.path, "x");
    SoundAndComplete(details, looks, f);
    ReportedIsChanged(details, looks, f);
  }

  /** Where the sanitiser is applied to a dict, what becomes of a string that keys lead to. */
  lemma SanitizedString(j: Json, path: seq<Step>, looks: Detector, text: string)
    requires j.Dict? && path != [] && KeysOnly(path) && Reaches(j, path) && PartAt(j, path) == Str(text)
    ensures Reaches(Sanitize(j, looks), path)
    ensures PartAt(Sanitize(j, looks), path) == Str(if looks(text) then "[ENCRYPTED]" else text)
  {
    SanitizeKeepsTheRest(j, path, looks);
    assert !ThroughList(path, 0);
  }

  /** What one pass makes of a field, by what the field holds. */
  lemma FieldAfterPass(details: Json, i: nat, looks: Detector)
    requires details.Dict? && i < |details.entries|
    ensures var after := CleanDetails(details, looks);
            && after.Dict? && |after.entries| == |details.entries| && after.entries[i].key == details.entries[i].key
            && after.entries[i].value
               == match details.entries[i].value
                  case Str(text) => if looks(text) then Str("[ENCRYPTED]") else Str(text)
                  case Dict(entries) =>
                    if exists k :: 0 <= k < |entries| && entries[k].value.Str? && looks(entries[k].value.text)
                    then Sanitize(Dict(entries), looks) else Dict(entries)
                  case other => other
  {
  }

  class AuditLog {
    const resourceType: string
    var details: Json

    constructor (resourceType: string, details: Json)
      ensures this.resourceType == resourceType && this.details == details
    {
      this.resourceType := resourceType;
      this.details := details;
    }
  }

  const AUDITED_TYPES := {"invoice", "client", "expense", "payment"}

  /** What one pass leaves in a record. */
  function Cleaned(resourceType: string, details: Json, looks: Detector): Json {
    if resourceType in AUDITED_TYPES then CleanDetails(details, looks) else details
  }

  /** The loop over one record's fields, which replaces them in place. */
  method CleanRecord(record: AuditLog, looks: Detector) returns (updated: bool)
    requires !looks(MARKER)
    modifies record`details
    ensures record.details == CleanDetails(old(record.details), looks)
    ensures updated <==> record.details != old(record.details)
  {
    updated := false;
    if !record.details.Dict? {
      return;
    }
    ghost var before := record.details;
    SecondPassIsIdle(before, looks);
    var size := |record.details.entries|;
    for i := 0 to size
      invariant size == |before.entries|
      invariant record.details.Dict? && |record.details.entries| == |before.entries|
      invariant forall k :: 0 <= k < i ==> record.details.entries[k] == CleanDetails(before, looks).entries[k]
      invariant forall k :: i <= k < |before.entries| ==> record.details.entries[k] == before.entries[k]
      invariant updated <==> exists k :: 0 <= k < i && NeedsCleaning(before.entries[k].value, looks)
    {
      var entry := record.details.entries[i];
      var nestedEncrypted := IsEncryptedJsonField(entry.value, looks);
      if entry.value.Str? && looks(entry.value.text) {
        record.details := Dict(record.details.entries[i := Entry(entry.key, Str(MARKER))]);
        updated := true;
      } else if entry.value.Dict? && nestedEncrypted {
        var clean := SanitizeJsonField(entry.value, looks);
        record.details := Dict(record.details.entries[i := Entry(entry.key, clean)]);
        updated := true;
      }
    }
    assert record.details.entries == CleanDetails(before, looks).entries;
  }

  /** How many records hold something else than before. */
  function CountChanged(before: seq<Json>, after: seq<Json>): nat
    requires |before| == |after|
  {
    if before == [] then 0
    else
      var n := |before| - 1;
      CountChanged(before[..n], after[..n]) + (if before[n] != after[n] then 1 else 0)
  }

  /** What one pass makes of the details of all records, given their resource types. */
  function PassOver(types: seq<string>, details: seq<Json>, looks: Detector): seq<Json>
    requires |types| == |details|
  {
    seq(|details|, i requires 0 <= i < |details| => Cleaned(types[i], details[i], looks))
  }

  lemma {:induction false} NoneChanged(details: seq<Json>)
    ensures CountChanged(details, details) == 0
  {
    if details != [] {
      NoneChanged(details[..|details| - 1]);
    }
  }

  /** The pass touches the records of invoices, clients, expenses and payments, and no others. */
  lemma AuditedRecords(resourceType: string, details: Json, looks: Detector)
    ensures Cleaned(resourceType, details, looks)
         == if resourceType == "invoice" || resourceType == "client" || resourceType == "expense" || resourceType == "payment"
            then CleanDetails(details, looks) else details
  {
  }

  lemma {:induction false} ChangesCounted(before: seq<Json>, after: seq<Json>)
    requires |before| == |after|
    ensures CountChanged(before, after) == |set i | 0 <= i < |before| && before[i] != after[i]|
  {
    var changed := set i | 0 <= i < |before| && before[i] != after[i];
    if |before| == 0 {
      assert changed == {};
    } else {
      var n := |before| - 1;
      ChangesCounted(before[..n], after[..n]);
      var fewer := set i | 0 <= i < n && before[..n][i] != after[..n][i];
      assert changed == if before[n] != after[n] then fewer + {n} else fewer;
    }
  }

  /** A second pass over the result of a first one counts zero. */
  lemma SecondPassCountsZero(types: seq<string>, details: seq<Json>, looks: Detector)
    requires |types| == |details| && !looks(MARKER)
    ensures var once := PassOver(types, details, looks);
            PassOver(types, once, looks) == once && CountChanged(once, PassOver(types, once, looks)) == 0
  {
    var once := PassOver(types, details, looks);
    forall i | 0 <= i < |details| ensures PassOver(types, once, looks)[i] == once[i] {
      if details[i].Dict? {
        SecondPassIsIdle(details[i], looks);
      }
    }
    NoneChanged(once);
  }

  ghost function Types(records: seq<AuditLog>): seq<string> {
    seq(|records|, i requires 0 <= i < |records| => records[i].resourceType)
  }

  lemma IsPassOver(types: seq<string>, before: seq<Json>, after: seq<Json>, looks: Detector)
    requires |types| == |before| == |after|
    requires forall i :: 0 <= i < |after| ==> after[i] == Cleaned(types[i], before[i], looks)
    ensures after == PassOver(types, before, looks)
  {
  }

  ghost function AllDetails(records: seq<AuditLog>): seq<Json>
    reads records
  {
    seq(|records|, i requires 0 <= i < |records| reads records => records[i].details)
  }

  /** One record of the pass. */
  method CleanIfAudited(record: AuditLog, looks: Detector) returns (updated: bool)
    requires !looks(MARKER)
    modifies record`details
    ensures record.details == Cleaned(record.resourceType, old(record.details), looks)
    ensures updated <==> record.details != old(record.details)
  {
    updated := false;
    if record.resourceType in AUDITED_TYPES {
      updated := CleanRecord(record, looks);
    }
  }

  /** `cleanup_audit_logs`, on the records in memory: the count is the number of records that really changed. */
  method CleanupAuditLogs(records: seq<AuditLog>, looks: Detector) returns (updatedCount: nat)
    requires !looks(MARKER)
    requires forall i, k :: 0 <= i < k < |records| ==> records[i] != records[k]
    modifies records
    ensures forall i :: 0 <= i < |records| ==>
              records[i].details == Cleaned(records[i].resourceType, old(records[i].details), looks)
    ensures forall i :: 0 <= i < |records| ==>
              records[i].details == if records[i].resourceType in {"invoice", "client", "expense", "payment"}
                                    then CleanDetails(old(records[i].details), looks) else old(records[i].details)
    ensures AllDetails(records) == PassOver(Types(records), old(AllDetails(records)), looks)
    ensures updatedCount == CountChanged(old(AllDetails(records)), AllDetails(records))
  {
    hide Cleaned, CleanDetails, PassOver;
    ghost var before := AllDetails(records);
    updatedCount := 0;
    for r := 0 to |records|
      invariant forall i :: 0 <= i < r ==>
                  records[i].details == Cleaned(records[i].resourceType, before[i], looks)
      invariant forall i :: r <= i < |records| ==> records[i].details == before[i]
      invariant updatedCount == CountChanged(before[..r], AllDetails(records[..r]))
    {
      ghost var done := AllDetails(records[..r]);
      var updated := CleanIfAudited(records[r], looks);
      if updated {
        updatedCount := updatedCount + 1;
      }
      assert AllDetails(records[..r]) == done;
      OneMoreRecord(before, records, r);
    }
    assert before[..|records|] == before && records[..|records|] == records;
    IsPassOver(Types(records), before, AllDetails(records), looks);
    forall i | 0 <= i < |records|
      ensures records[i].details == if records[i].resourceType in {"invoice", "client", "expense", "payment"}
                                    then CleanDetails(before[i], looks) else before[i]
    {
      AuditedRecords(records[i].resourceType, before[i], looks);
    }
  }

  lemma OneMoreRecord(before: seq<Json>, records: seq<AuditLog>, r: nat)
    requires r < |before| == |records|
    ensures CountChanged(before[..r + 1], AllDetails(records[..r + 1]))
         == CountChanged(before[..r], AllDetails(records[..r])) + (if before[r] != records[r].details then 1 else 0)
  {
    var after := AllDetails(records[..r + 1]);
    assert before[..r + 1][..r] == before[..r] && after[..r] == AllDetails(records[..r]);
  }
}
