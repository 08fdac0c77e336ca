/** app/baseline/columns.py: binding a vendor's column headers to the fields the metrics need.

    `Resolve` is the source's three loops over its dictionaries. It is proved to return `Binding`, the
    same decision written as recursion on the fields, and what the module promises of a binding is
    proved about that. */
module HeaderBinding {
  import opened Wrappers

  type Field = string
  type Header = string

  datatype Error =
    | UnknownField(field: Field)
    | NoSuchColumn(field: Field)
    | MissingRequired(fields: seq<Field>)

  /** Field to the exact header in the file, and the fields nobody pinned. */
  datatype ColumnMap = ColumnMap(mapping: map<Field, Header>, auto: set<Field>)

  /** `known` and `required` in declared order; `synonyms` may say nothing of a field. */
  datatype Table = Table(known: seq<Field>, required: seq<Field>, synonyms: map<Field, seq<string>>)

  /** `--map` arguments: a dictionary, so no field twice. */
  type Overrides = seq<(Field, Header)>

  function Lower(c: char): char {
    if 'A' <= c <= 'Z' then c - 'A' + 'a' else c
  }

  predicate Kept(c: char) {
    'a' <= c <= 'z' || '0' <= c <= '9'
  }

  /** Spelling differences only: case, spaces and punctuation go. */
  function Normalize(h: string): string {
    if h == [] then []
    else (if Kept(Lower(h[0])) then [Lower(h[0])] else []) + Normalize(h[1..])
  }

  // ---------------------------------------------------------------- the decision

  /** The first header of that normal form. */
  function FirstHeader(headers: seq<Header>, n: string): (r: Option<Header>)
    ensures r.Some? ==> r.value in headers && Normalize(r.value) == n
    ensures r.None? ==> forall h :: h in headers ==> Normalize(h) != n
  {
    if headers == [] then None
    else if Normalize(headers[0]) == n then Some(headers[0])
    else FirstHeader(headers[1..], n)
  }

  function Candidates(t: Table, f: Field): seq<string> {
    [f] + if f in t.synonyms then t.synonyms[f] else []
  }

  /** The first candidate whose header exists and is not taken. */
  function Pick(headers: seq<Header>, taken: set<Header>, candidates: seq<string>): Option<Header> {
    if candidates == [] then None
    else
      var found := FirstHeader(headers, Normalize(candidates[0]));
      if found.Some? && found.value !in taken then found
      else Pick(headers, taken, candidates[1..])
  }

  function ApplyOverrides(headers: seq<Header>, t: Table, os: Overrides, m: map<Field, Header>)
    : Result<map<Field, Header>, Error>
  {
    if os == [] then Ok(m)
    else if os[0].0 !in t.known then Err(UnknownField(os[0].0))
    else
      var found := FirstHeader(headers, Normalize(os[0].1));
      if found.None? then Err(NoSuchColumn(os[0].0))
      else ApplyOverrides(headers, t, os[1..], m[os[0].0 := found.value])
  }

  /** One field of the automatic pass. */
  function BindOne(headers: seq<Header>, t: Table, f: Field, m: map<Field, Header>): map<Field, Header> {
    if f in m then m
    else
      match Pick(headers, m.Values, Candidates(t, f))
      case Some(h) => m[f := h]
      case None => m
  }

  function AutoBind(headers: seq<Header>, t: Table, fields: seq<Field>, m: map<Field, Header>): map<Field, Header> {
    if fields == [] then m else AutoBind(headers, t, fields[1..], BindOne(headers, t, fields[0], m))
  }

  function Unbound(fields: seq<Field>, m: map<Field, Header>): seq<Field> {
    if fields == [] then []
    else (if fields[0] in m then [] else [fields[0]]) + Unbound(fields[1..], m)
  }

  function Binding(headers: seq<Header>, t: Table, os: Overrides): Result<ColumnMap, Error> {
    match ApplyOverrides(headers, t, os, map[])
    case Err(e) => Err(e)
    case Ok(pinned) =>
      var m := AutoBind(headers, t, t.known, pinned);
      if Unbound(t.required, m) != [] then Err(MissingRequired(Unbound(t.required, m)))
      else Ok(ColumnMap(m, m.Keys - pinned.Keys))
  }

  // ---------------------------------------------------------------- resolve

  /** What `by_normalized` holds: each normal form's first header. */
  ghost predicate Indexes(index: map<string, Header>, headers: seq<Header>) {
    forall n :: FirstHeader(headers, n) == if n in index then Some(index[n]) else None
  }

  method IndexHeaders(headers: seq<Header>) returns (index: map<string, Header>)
    ensures Indexes(index, headers)
  {
    index := map[];
    for i := 0 to |headers|
      invariant Indexes(index, headers[..i])
    {
      forall n {
        FirstHeaderGrows(headers, i, n);
      }
      if Normalize(headers[i]) !in index {
        index := index[Normalize(headers[i]) := headers[i]];
      }
    }
    assert headers[..|headers|] == headers;
  }

  method PinOverrides(headers: seq<Header>, t: Table, os: Overrides, index: map<string, Header>)
    returns (r: Result<map<Field, Header>, Error>)
    requires Indexes(index, headers)
    ensures r == ApplyOverrides(headers, t, os, map[])
  {
    var mapping: map<Field, Header> := map[];
    for i := 0 to |os|
      invariant ApplyOverrides(headers, t, os, map[]) == ApplyOverrides(headers, t, os[i..], mapping)
    {
      var (canonical, requested) := os[i];
      assert os[i..][1..] == os[i + 1..];
      if canonical !in t.known {
        return Err(UnknownField(canonical));
      }
      if Normalize(requested) !in index {
        return Err(NoSuchColumn(canonical));
      }
      mapping := mapping[canonical := index[Normalize(requested)]];
    }
    return Ok(mapping);
  }

  /** One field's walk through its candidates, stopping at the first that can be had. */
  method Detect(headers: seq<Header>, t: Table, f: Field, index: map<string, Header>, mapping: map<Field, Header>)
    returns (found: Option<Header>)
    requires Indexes(index, headers)
    ensures found == Pick(headers, mapping.Values, Candidates(t, f))
  {
    var candidates := Candidates(t, f);
    for j := 0 to |candidates|
      invariant Pick(headers, mapping.Values, candidates) == Pick(headers, mapping.Values, candidates[j..])
    {
      assert candidates[j..][1..] == candidates[j + 1..];
      var n := Normalize(candidates[j]);
      if n in index && index[n] !in mapping.Values {
        return Some(index[n]);
      }
    }
    return None;
  }

  method AutoDetect(headers: seq<Header>, t: Table, index: map<string, Header>, pinned: map<Field, Header>)
    returns (mapping: map<Field, Header>, auto: set<Field>)
    requires Indexes(index, headers)
    ensures mapping == AutoBind(headers, t, t.known, pinned)
    ensures auto == mapping.Keys - pinned.Keys
  {
    mapping, auto := pinned, {};
    for i := 0 to |t.known|
      invariant AutoBind(headers, t, t.known, pinned) == AutoBind(headers, t, t.known[i..], mapping)
      invariant pinned.Keys <= mapping.Keys && auto == mapping.Keys - pinned.Keys
    {
      var canonical := t.known[i];
      assert t.known[i..][1..] == t.known[i + 1..];
      if canonical !in mapping {
        var found := Detect(headers, t, canonical, index, mapping);
        if found.Some? {
          mapping := mapping[canonical := found.value];
          auto := auto + {canonical};
        }
      }
    }
    assert t.known[|t.known|..] == [];
  }

  method Missing(required: seq<Field>, mapping: map<Field, Header>) returns (missing: seq<Field>)
    ensures missing == Unbound(required, mapping)
  {
    missing := [];
    for i := 0 to |required|
      invariant missing + Unbound(required[i..], mapping) == Unbound(required, mapping)
    {
      assert required[i..][0] == required[i] && required[i..][1..] == required[i + 1..];
      ghost var rest := Unbound(required[i + 1..], mapping);
      assert missing + ([required[i]] + rest) == missing + [required[i]] + rest;
      if required[i] !in mapping {
        missing := missing + [required[i]];
      }
    }
    assert required[|required|..] == [] && missing + [] == missing;
  }

  method Resolve(headers: seq<Header>, t: Table, os: Overrides) returns (r: Result<ColumnMap, Error>)
    ensures r == Binding(headers, t, os)
  {
    var index := IndexHeaders(headers);
    var pinned := PinOverrides(headers, t, os, index);
    if pinned.Err? {
      return Err(pinned.error);
    }
    var mapping, auto := AutoDetect(headers, t, index, pinned.value);
    var missing := Missing(t.required, mapping);
    r := if missing != [] then Err(MissingRequired(missing)) else Ok(ColumnMap(mapping, auto));
  }

  lemma {:induction false} FirstHeaderGrows(headers: seq<Header>, i: nat, n: string)
    requires i < |headers|
    ensures FirstHeader(headers[..i + 1], n) ==
      if FirstHeader(headers[..i], n).Some? then FirstHeader(headers[..i], n)
      else if Normalize(headers[i]) == n then Some(headers[i]) else None
  {
    if i > 0 {
      assert headers[..i + 1][1..] == headers[1..][..i];
      assert headers[..i][1..] == headers[1..][..i - 1];
      FirstHeaderGrows(headers[1..], i - 1, n);
    } else {
      assert headers[..1] == [headers[0]];
    }
  }

  // ---------------------------------------------------------------- what a binding promises

  ghost predicate Extends(m: map<Field, Header>, more: map<Field, Header>) {
    forall f :: f in m ==> f in more && more[f] == m[f]
  }

  /** `fields` is a dictionary's keys. */
  predicate Distinct(fields: seq<Field>) {
    forall i, j :: 0 <= i < j < |fields| ==> fields[i] != fields[j]
  }

  lemma {:induction false} PickIsFree(headers: seq<Header>, taken: set<Header>, candidates: seq<string>)
    ensures match Pick(headers, taken, candidates)
      case Some(h) =>
        h !in taken && FirstHeader(headers, Normalize(h)) == Some(h) &&
        exists i :: 0 <= i < |candidates| && Normalize(candidates[i]) == Normalize(h) &&
          forall j :: 0 <= j < i ==> Unavailable(headers, taken, candidates[j])
      case None => forall j :: 0 <= j < |candidates| ==> Unavailable(headers, taken, candidates[j])
  {
    if candidates != [] {
      var found := FirstHeader(headers, Normalize(candidates[0]));
      if found.Some? && found.value !in taken {
      } else {
        PickIsFree(headers, taken, candidates[1..]);
        var rest := Pick(headers, taken, candidates[1..]);
        if rest.Some? {
          var i :| 0 <= i < |candidates[1..]| && Normalize(candidates[1..][i]) == Normalize(rest.value) &&
            forall j :: 0 <= j < i ==> Unavailable(headers, taken, candidates[1..][j]);
          forall j | 0 <= j < i + 1 ensures Unavailable(headers, taken, candidates[j]) {
            assert j > 0 ==> candidates[j] == candidates[1..][j - 1];
          }
        } else {
          forall j | 0 <= j < |candidates| ensures Unavailable(headers, taken, candidates[j]) {
            assert j > 0 ==> candidates[j] == candidates[1..][j - 1];
          }
        }
      }
    }
  }

  /** No header has the candidate's normal form, or the one that has is taken. */
  ghost predicate Unavailable(headers: seq<Header>, taken: set<Header>, candidate: string) {
    match FirstHeader(headers, Normalize(candidate))
    case None => true
    case Some(h) => h in taken
  }

  /** The automatic pass keeps what is bound, and gives each field it binds a header of its own. */
  lemma {:induction false} AutoBindExtends(headers: seq<Header>, t: Table, fields: seq<Field>, m: map<Field, Header>)
    ensures var r := AutoBind(headers, t, fields, m);
      && Extends(m, r)
      && (forall f :: f in r && f !in m ==>
            f in fields && r[f] !in m.Values && FirstHeader(headers, Normalize(r[f])) == Some(r[f]))
      && (forall f, g :: f in r && f !in m && g in r && g != f ==> r[f] != r[g])
      && (forall f :: f in fields && f !in r ==>
            forall j :: 0 <= j < |Candidates(t, f)| ==> Unavailable(headers, r.Values, Candidates(t, f)[j]))
  {
    if fields != [] {
      var f := fields[0];
      var m' := BindOne(headers, t, f, m);
      AutoBindExtends(headers, t, fields[1..], m');
      PickIsFree(headers, m.Values, Candidates(t, f));
      var r := AutoBind(headers, t, fields, m);
      assert Extends(m, m');
      forall h | h in m.Values ensures h in r.Values && h in m'.Values {
        var g :| g in m && m[g] == h;
        assert m'[g] == h && r[g] == h;
      }
      assert f in m' ==> m'[f] in m'.Values;
    }
  }

  /** One field's turn, with some of what is to come already pinned. */
  lemma PinsSurviveATurn(headers: seq<Header>, t: Table, f: Field, rest: seq<Field>,
                         m: map<Field, Header>, more: map<Field, Header>, r: map<Field, Header>)
    requires f !in rest && r == AutoBind(headers, t, rest, BindOne(headers, t, f, m))
    requires Extends(m, more) && Extends(more, r)
    ensures Extends(BindOne(headers, t, f, m), BindOne(headers, t, f, more))
    ensures Extends(BindOne(headers, t, f, more), r)
  {
    var m' := BindOne(headers, t, f, m);
    AutoBindExtends(headers, t, rest, m');
    if f !in m {
      ValuesGrow(m, more);
      var picked := Pick(headers, m.Values, Candidates(t, f));
      PickIsFree(headers, m.Values, Candidates(t, f));
      PickSurvives(headers, m.Values, more.Values, Candidates(t, f));
      if picked.Some? && f !in more {
        forall g | g in more ensures more[g] != picked.value {
          assert r[g] == more[g] && r[f] == m'[f] == picked.value;
          assert g in m ==> m[g] in m.Values;
        }
      }
    }
  }

  lemma ValuesGrow(m: map<Field, Header>, more: map<Field, Header>)
    requires Extends(m, more)
    ensures m.Values <= more.Values
  {
    forall h | h in m.Values ensures h in more.Values {
      var g :| g in m && m[g] == h;
      assert more[g] == h;
    }
  }

  /** Pinning fields the pass would have bound, to the headers it would have given them, changes no
      binding. */
  lemma {:induction false} PinsAreStable(headers: seq<Header>, t: Table, fields: seq<Field>,
                                         m: map<Field, Header>, more: map<Field, Header>)
    requires Distinct(fields)
    requires Extends(m, more) && Extends(more, AutoBind(headers, t, fields, m))
    ensures AutoBind(headers, t, fields, more) == AutoBind(headers, t, fields, m)
  {
    if fields == [] {
      assert more == m;
    } else {
      var f, rest := fields[0], fields[1..];
      assert forall j :: 0 <= j < |rest| ==> rest[j] == fields[j + 1];
      PinsSurviveATurn(headers, t, f, rest, m, more, AutoBind(headers, t, fields, m));
      PinsAreStable(headers, t, rest, BindOne(headers, t, f, m), BindOne(headers, t, f, more));
    }
  }

  /** Taking more headers leaves a choice alone unless it takes the header chosen. */
  lemma {:induction false} PickSurvives(headers: seq<Header>, taken: set<Header>, more: set<Header>,
                                        candidates: seq<string>)
    requires taken <= more
    ensures var picked := Pick(headers, taken, candidates);
      picked.None? || picked.value !in more ==> Pick(headers, more, candidates) == picked
  {
    if candidates != [] {
      PickSurvives(headers, taken, more, candidates[1..]);
    }
  }

  /** An accepted binding: every required field is bound, every pin holds, every header is the first of
      its spelling, no automatic binding shares its header with another field, and a field is left out
      only when each of its candidates is absent or taken. */
  lemma BindingIsSound(headers: seq<Header>, t: Table, os: Overrides)
    requires Binding(headers, t, os).Ok?
    ensures var m, auto := Binding(headers, t, os).value.mapping, Binding(headers, t, os).value.auto;
      && (forall f :: f in t.required ==> f in m)
      && (forall f :: f in m <==> f in auto || exists o :: o in os && o.0 == f)
      && (forall f :: f in auto ==> !exists o :: o in os && o.0 == f)
      && (forall f :: f in m ==> f in t.known && FirstHeader(headers, Normalize(m[f])) == Some(m[f]))
      && (forall f :: f in m && f !in auto ==> exists o :: o in os && o.0 == f && Normalize(o.1) == Normalize(m[f]))
      && (forall f, g :: f in auto && g in m && g != f ==> m[f] != m[g])
      && (forall f :: f in t.known && f !in m ==>
            forall j :: 0 <= j < |Candidates(t, f)| ==> Unavailable(headers, m.Values, Candidates(t, f)[j]))
  {
    var pinned := ApplyOverrides(headers, t, os, map[]).value;
    OverridesPin(headers, t, os, map[]);
    AutoBindExtends(headers, t, t.known, pinned);
    UnboundListsMissing(t.required, AutoBind(headers, t, t.known, pinned));
  }

  /** `g` is declared before `f`. */
  predicate Earlier(known: seq<Field>, g: Field, f: Field) {
    exists a, b :: 0 <= a < b < |known| && known[a] == g && known[b] == f
  }

  /** A candidate of `f` not to be had in its turn: no header has its normal form, or the one that has was
      pinned, or bound to a field declared before `f`. */
  ghost predicate PassedOver(headers: seq<Header>, t: Table, pinned: set<Field>, m: map<Field, Header>, f: Field,
                             c: string)
  {
    match FirstHeader(headers, Normalize(c))
    case None => true
    case Some(h) => exists g :: g in m && m[g] == h && (g in pinned || Earlier(t.known, g, f))
  }

  /** `f` has the first of its candidates that was to be had in its turn, or none was. */
  ghost predicate Greedy(headers: seq<Header>, t: Table, pinned: set<Field>, m: map<Field, Header>, f: Field) {
    var cs := Candidates(t, f);
    if f in m then
      exists i :: 0 <= i < |cs| && Normalize(cs[i]) == Normalize(m[f]) &&
        forall j :: 0 <= j < i ==> PassedOver(headers, t, pinned, m, f, cs[j])
    else forall j :: 0 <= j < |cs| ==> PassedOver(headers, t, pinned, m, f, cs[j])
  }

  /** The canonical spelling wins, then the synonyms in listed order, each field in declared order: every
      field not pinned is bound by that rule, and the rule leaves nothing open. */
  lemma BindingIsGreedy(headers: seq<Header>, t: Table, os: Overrides)
    requires Distinct(t.known) && Binding(headers, t, os).Ok?
    ensures var m, auto := Binding(headers, t, os).value.mapping, Binding(headers, t, os).value.auto;
      forall f :: f in t.known && (f in m ==> f in auto) ==> Greedy(headers, t, m.Keys - auto, m, f)
  {
    var pinned := ApplyOverrides(headers, t, os, map[]).value;
    var m := AutoBind(headers, t, t.known, pinned);
    AutoBindExtends(headers, t, t.known, pinned);
    assert [] + t.known == t.known;
    GreedyFrom(headers, t, [], t.known, pinned, pinned.Keys, m);
    assert m.Keys - (m.Keys - pinned.Keys) == pinned.Keys;
  }

  /** The same, of a field's own name and its synonyms as they are listed: a field not pinned has the header of its
      own spelling if that was to be had in its turn, and failing that the header of its first synonym that was;
      it is left out exactly when none of them was. */
  lemma CanonicalThenSynonyms(headers: seq<Header>, t: Table, os: Overrides, f: Field)
    requires Distinct(t.known) && Binding(headers, t, os).Ok?
    requires f in t.known && !exists o :: o in os && o.0 == f
    ensures var m, auto := Binding(headers, t, os).value.mapping, Binding(headers, t, os).value.auto;
      var pinned := m.Keys - auto;
      && (!PassedOver(headers, t, pinned, m, f, f) ==> f in m && Normalize(m[f]) == Normalize(f))
      && (PassedOver(headers, t, pinned, m, f, f) && f in m ==>
            f in t.synonyms && exists i :: FirstToBeHad(headers, t, pinned, m, f, i))
      && (f !in m <==>
            PassedOver(headers, t, pinned, m, f, f) &&
            (f in t.synonyms ==> forall c :: c in t.synonyms[f] ==> PassedOver(headers, t, pinned, m, f, c)))
  {
    BindingIsSound(headers, t, os);
    var m := Binding(headers, t, os).value.mapping;
    if f in m {
      var i := SpellingBoundBy(headers, t, os, f);
      if i > 0 {
        SynonymBoundBy(headers, t, os, f, i);
      }
    } else {
      NothingToBeHad(headers, t, os, f);
    }
  }

  /** The spelling a field was bound by was to be had, and none before it was. */
  lemma SpellingBoundBy(headers: seq<Header>, t: Table, os: Overrides, f: Field) returns (i: nat)
    requires Distinct(t.known) && Binding(headers, t, os).Ok?
    requires f in t.known && f in Binding(headers, t, os).value.auto && f in Binding(headers, t, os).value.mapping
    ensures var cm, cs := Binding(headers, t, os).value, Candidates(t, f);
      var pinned := cm.mapping.Keys - cm.auto;
      && i < |cs| && Normalize(cs[i]) == Normalize(cm.mapping[f])
      && !PassedOver(headers, t, pinned, cm.mapping, f, cs[i])
      && forall j :: 0 <= j < i ==> PassedOver(headers, t, pinned, cm.mapping, f, cs[j])
  {
    BindingIsGreedy(headers, t, os);
    var cm, cs := Binding(headers, t, os).value, Candidates(t, f);
    assert Greedy(headers, t, cm.mapping.Keys - cm.auto, cm.mapping, f);
    i :| 0 <= i < |cs| && Normalize(cs[i]) == Normalize(cm.mapping[f]) &&
      forall j :: 0 <= j < i ==> PassedOver(headers, t, cm.mapping.Keys - cm.auto, cm.mapping, f, cs[j]);
    OwnHeaderIsToBeHad(headers, t, os, f, cs[i]);
  }

  lemma SynonymBoundBy(headers: seq<Header>, t: Table, os: Overrides, f: Field, i: nat)
    requires Binding(headers, t, os).Ok? && f in Binding(headers, t, os).value.mapping
    requires 0 < i < |Candidates(t, f)|
    requires var cm, cs := Binding(headers, t, os).value, Candidates(t, f);
      var pinned := cm.mapping.Keys - cm.auto;
      && Normalize(cs[i]) == Normalize(cm.mapping[f]) && !PassedOver(headers, t, pinned, cm.mapping, f, cs[i])
      && forall j :: 0 <= j < i ==> PassedOver(headers, t, pinned, cm.mapping, f, cs[j])
    ensures var cm := Binding(headers, t, os).value;
      && f in t.synonyms && FirstToBeHad(headers, t, cm.mapping.Keys - cm.auto, cm.mapping, f, i - 1)
      && PassedOver(headers, t, cm.mapping.Keys - cm.auto, cm.mapping, f, f)
      && t.synonyms[f][i - 1] in t.synonyms[f]
  {
    var cm, cs := Binding(headers, t, os).value, Candidates(t, f);
    assert cs[0] == f && cs[i] == t.synonyms[f][i - 1];
    forall j | 0 <= j < i - 1
      ensures PassedOver(headers, t, cm.mapping.Keys - cm.auto, cm.mapping, f, t.synonyms[f][j])
    {
      assert cs[j + 1] == t.synonyms[f][j];
    }
  }

  /** Of a field left out, neither its own spelling nor any synonym was to be had. */
  lemma NothingToBeHad(headers: seq<Header>, t: Table, os: Overrides, f: Field)
    requires Distinct(t.known) && Binding(headers, t, os).Ok?
    requires f in t.known && f !in Binding(headers, t, os).value.mapping
    ensures var cm := Binding(headers, t, os).value;
      var pinned := cm.mapping.Keys - cm.auto;
      && PassedOver(headers, t, pinned, cm.mapping, f, f)
      && (f in t.synonyms ==> forall c :: c in t.synonyms[f] ==> PassedOver(headers, t, pinned, cm.mapping, f, c))
  {
    BindingIsGreedy(headers, t, os);
    var cm, cs := Binding(headers, t, os).value, Candidates(t, f);
    assert Greedy(headers, t, cm.mapping.Keys - cm.auto, cm.mapping, f);
    assert cs[0] == f;
    if f in t.synonyms {
      forall c | c in t.synonyms[f] ensures PassedOver(headers, t, cm.mapping.Keys - cm.auto, cm.mapping, f, c) {
        var i :| 0 <= i < |t.synonyms[f]| && t.synonyms[f][i] == c;
        assert cs[i + 1] == c;
      }
    }
  }

  /** The `i`-th synonym was to be had, is what `f` is bound by, and none before it was to be had. */
  ghost predicate FirstToBeHad(headers: seq<Header>, t: Table, pinned: set<Field>, m: map<Field, Header>, f: Field,
                               i: int)
    requires f in m && f in t.synonyms
  {
    && 0 <= i < |t.synonyms[f]| && Normalize(m[f]) == Normalize(t.synonyms[f][i])
    && !PassedOver(headers, t, pinned, m, f, t.synonyms[f][i])
    && forall j :: 0 <= j < i ==> PassedOver(headers, t, pinned, m, f, t.synonyms[f][j])
  }

  /** A field bound automatically was not passed over by the spelling it was bound by. */
  lemma OwnHeaderIsToBeHad(headers: seq<Header>, t: Table, os: Overrides, f: Field, c: string)
    requires Distinct(t.known) && Binding(headers, t, os).Ok?
    requires var cm := Binding(headers, t, os).value;
      f in cm.auto && f in cm.mapping && Normalize(c) == Normalize(cm.mapping[f])
    ensures var cm := Binding(headers, t, os).value;
      !PassedOver(headers, t, cm.mapping.Keys - cm.auto, cm.mapping, f, c)
  {
    BindingIsSound(headers, t, os);
  }

  /** The header of a normal form is the first that has it. */
  lemma {:induction false} FirstIsFirst(headers: seq<Header>, n: string, i: nat)
    requires i < |headers| && Normalize(headers[i]) == n
    requires forall j :: 0 <= j < i ==> Normalize(headers[j]) != n
    ensures FirstHeader(headers, n) == Some(headers[i])
  {
    if i > 0 {
      FirstIsFirst(headers[1..], n, i - 1);
    }
  }

  /** What a spelling comes to, character by character: letters in lower case, digits, and nothing else. */
  lemma {:induction false} NormalizeIs(a: string, b: string, c: char)
    ensures Normalize(a + b) == Normalize(a) + Normalize(b)
    ensures 'a' <= c <= 'z' || '0' <= c <= '9' ==> Normalize([c]) == [c]
    ensures 'A' <= c <= 'Z' ==> exists l: char :: 'a' <= l <= 'z' && Normalize([c]) == [l] && l - 'a' == c - 'A'
    ensures !('a' <= c <= 'z' || '0' <= c <= '9' || 'A' <= c <= 'Z') ==> Normalize([c]) == []
  {
    assert Normalize([c]) == (if Kept(Lower(c)) then [Lower(c)] else []) + Normalize([]);
    if a == [] {
      assert a + b == b;
    } else {
      assert (a + b)[1..] == a[1..] + b && (a + b)[0] == a[0];
      NormalizeIs(a[1..], b, c);
    }
  }

  /** An override of a known field that names a header there is. */
  ghost predicate Fits(headers: seq<Header>, t: Table, o: (Field, Header)) {
    o.0 in t.known && exists h :: h in headers && Normalize(h) == Normalize(o.1)
  }

  /** A binding fails at the first override that does not fit, by what is wrong with it; and if all fit, exactly
      where a required field is left out, naming those that are. */
  lemma BindingFails(headers: seq<Header>, t: Table, os: Overrides, i: nat)
    requires i <= |os| && forall j :: 0 <= j < i ==> Fits(headers, t, os[j])
    ensures i < |os| && os[i].0 !in t.known ==> Binding(headers, t, os) == Err(UnknownField(os[i].0))
    ensures i < |os| && os[i].0 in t.known && !Fits(headers, t, os[i]) ==>
      Binding(headers, t, os) == Err(NoSuchColumn(os[i].0))
    ensures i == |os| ==> ApplyOverrides(headers, t, os, map[]).Ok?
    ensures i == |os| ==>
      var m := AutoBind(headers, t, t.known, ApplyOverrides(headers, t, os, map[]).value);
      match Binding(headers, t, os)
      case Ok(cm) => cm.mapping == m && forall f :: f in t.required ==> f in m
      case Err(MissingRequired(fields)) => fields != [] && forall f :: f in fields <==> f in t.required && f !in m
      case Err(_) => false
  {
    OverridesFail(headers, t, os, i, map[]);
    if i == |os| {
      UnboundListsMissing(t.required, AutoBind(headers, t, t.known, ApplyOverrides(headers, t, os, map[]).value));
    }
  }

  lemma {:induction false} OverridesFail(headers: seq<Header>, t: Table, os: Overrides, i: nat, m: map<Field, Header>)
    requires i <= |os| && forall j :: 0 <= j < i ==> Fits(headers, t, os[j])
    ensures i < |os| && os[i].0 !in t.known ==> ApplyOverrides(headers, t, os, m) == Err(UnknownField(os[i].0))
    ensures i < |os| && os[i].0 in t.known && !Fits(headers, t, os[i]) ==>
      ApplyOverrides(headers, t, os, m) == Err(NoSuchColumn(os[i].0))
    ensures i == |os| ==> ApplyOverrides(headers, t, os, m).Ok?
    decreases |os|
  {
    if i > 0 {
      assert Fits(headers, t, os[0]);
      var found := FirstHeader(headers, Normalize(os[0].1));
      OverridesFail(headers, t, os[1..], i - 1, m[os[0].0 := found.value]);
    }
  }

  /** The fields found missing are in the order they were asked for. */
  lemma {:induction false} UnboundInOrder(fields: seq<Field>, f: Field, m: map<Field, Header>)
    ensures Unbound(fields + [f], m) == Unbound(fields, m) + if f in m then [] else [f]
  {
    if fields == [] {
      assert [] + [f] == [f] && [f][1..] == [];
    } else {
      assert (fields + [f])[1..] == fields[1..] + [f] && (fields + [f])[0] == fields[0];
      UnboundInOrder(fields[1..], f, m);
    }
  }

  lemma {:induction false} GreedyFrom(headers: seq<Header>, t: Table, done: seq<Field>, fields: seq<Field>,
                                      m: map<Field, Header>, pinned: set<Field>, r: map<Field, Header>)
    requires Distinct(t.known) && done + fields == t.known
    requires r == AutoBind(headers, t, fields, m)
    requires forall g :: g in m ==> g in pinned || g in done
    requires forall g :: g in pinned ==> g in m
    ensures forall f :: f in fields && f !in pinned ==> Greedy(headers, t, pinned, r, f)
    decreases |fields|
  {
    if fields != [] {
      var f := fields[0];
      assert f == t.known[|done|];
      var m' := BindOne(headers, t, f, m);
      assert (done + [f]) + fields[1..] == t.known;
      GreedyFrom(headers, t, done + [f], fields[1..], m', pinned, r);
      AutoBindExtends(headers, t, fields[1..], m');
      if f !in pinned {
        DeclaredOnce(t, done, fields);
        GreedyTurn(headers, t, done, fields, m, pinned, r);
      }
      assert forall g :: g in fields ==> g == f || g in fields[1..];
    }
  }

  lemma DeclaredOnce(t: Table, done: seq<Field>, fields: seq<Field>)
    requires fields != [] && Distinct(t.known) && done + fields == t.known
    ensures fields[0] !in done && fields[0] !in fields[1..]
  {
    forall a | 0 <= a < |done| ensures done[a] != fields[0] {
      assert t.known[a] == done[a] && t.known[|done|] == fields[0];
    }
    forall b | 0 <= b < |fields[1..]| ensures fields[1..][b] != fields[0] {
      assert t.known[|done| + 1 + b] == fields[1..][b] && t.known[|done|] == fields[0];
    }
  }

  /** The turn of the first of `fields`. */
  lemma GreedyTurn(headers: seq<Header>, t: Table, done: seq<Field>, fields: seq<Field>,
                   m: map<Field, Header>, pinned: set<Field>, r: map<Field, Header>)
    requires fields != [] && Distinct(t.known) && done + fields == t.known
    requires forall g :: g in m ==> g in pinned || g in done
    requires fields[0] !in m && Extends(BindOne(headers, t, fields[0], m), r)
    requires fields[0] in r ==> fields[0] in BindOne(headers, t, fields[0], m)
    ensures Greedy(headers, t, pinned, r, fields[0])
  {
    var f := fields[0];
    PickIsFree(headers, m.Values, Candidates(t, f));
    forall c | Unavailable(headers, m.Values, c) ensures PassedOver(headers, t, pinned, r, f, c) {
      var found := FirstHeader(headers, Normalize(c));
      if found.Some? {
        var g :| g in m && m[g] == found.value;
        assert r[g] == m[g];
        if g !in pinned {
          var a :| 0 <= a < |done| && done[a] == g;
          assert t.known[a] == g && t.known[|done|] == f;
        }
      }
    }
  }

  lemma {:induction false} OverridesPin(headers: seq<Header>, t: Table, os: Overrides, m: map<Field, Header>)
    requires ApplyOverrides(headers, t, os, m).Ok?
    ensures var r := ApplyOverrides(headers, t, os, m).value;
      && (forall f :: f in r <==> f in m || exists o :: o in os && o.0 == f)
      && (forall f :: f in r && !(f in m && r[f] == m[f]) ==>
            f in t.known && FirstHeader(headers, Normalize(r[f])) == Some(r[f]) &&
            exists o :: o in os && o.0 == f && Normalize(o.1) == Normalize(r[f]))
  {
    if os != [] {
      var found := FirstHeader(headers, Normalize(os[0].1));
      OverridesPin(headers, t, os[1..], m[os[0].0 := found.value]);
      assert os[0] in os && forall o :: o in os[1..] ==> o in os;
      assert forall o :: o in os ==> o == os[0] || o in os[1..];
    }
  }

  lemma {:induction false} UnboundListsMissing(fields: seq<Field>, m: map<Field, Header>)
    ensures forall f :: f in Unbound(fields, m) <==> f in fields && f !in m
  {
    if fields != [] {
      UnboundListsMissing(fields[1..], m);
    }
  }

  // ---------------------------------------------------------------- pinning

  /** Overrides that pin fields to the headers they already have, in any spelling of them. */
  ghost predicate Pins(ps: Overrides, cm: ColumnMap) {
    forall p :: p in ps ==> p.0 in cm.auto && p.0 in cm.mapping && Normalize(p.1) == Normalize(cm.mapping[p.0])
  }

  function Fields(ps: Overrides): set<Field> {
    set p | p in ps :: p.0
  }

  /** Turning any automatic bindings into explicit ones leaves the mapping as it was. */
  lemma PinningChangesNothing(headers: seq<Header>, t: Table, os: Overrides, ps: Overrides)
    requires Distinct(t.known)
    requires Binding(headers, t, os).Ok? && Pins(ps, Binding(headers, t, os).value)
    ensures var cm := Binding(headers, t, os).value;
      Binding(headers, t, os + ps) == Ok(ColumnMap(cm.mapping, cm.auto - Fields(ps)))
  {
    var cm := Binding(headers, t, os).value;
    var pinned := ApplyOverrides(headers, t, os, map[]).value;
    BindingIsSound(headers, t, os);
    OverridesAppend(headers, t, os, ps, map[]);
    AutoBindExtends(headers, t, t.known, pinned);
    PinsApply(headers, t, ps, cm, pinned);
    var more := ApplyOverrides(headers, t, ps, pinned).value;
    PinsAreStable(headers, t, t.known, pinned, more);
    assert cm.mapping.Keys - more.Keys == cm.auto - Fields(ps);
  }

  lemma {:induction false} OverridesAppend(headers: seq<Header>, t: Table, os: Overrides, ps: Overrides,
                                           m: map<Field, Header>)
    requires ApplyOverrides(headers, t, os, m).Ok?
    ensures ApplyOverrides(headers, t, os + ps, m) ==
            ApplyOverrides(headers, t, ps, ApplyOverrides(headers, t, os, m).value)
  {
    if os == [] {
      assert os + ps == ps;
    } else {
      assert (os + ps)[1..] == os[1..] + ps;
      OverridesAppend(headers, t, os[1..], ps, m[os[0].0 := FirstHeader(headers, Normalize(os[0].1)).value]);
    }
  }

  lemma {:induction false} PinsApply(headers: seq<Header>, t: Table, ps: Overrides, cm: ColumnMap,
                                     m: map<Field, Header>)
    requires Pins(ps, cm) && Extends(m, cm.mapping)
    requires forall f :: f in cm.mapping ==>
      f in t.known && FirstHeader(headers, Normalize(cm.mapping[f])) == Some(cm.mapping[f])
    ensures var r := ApplyOverrides(headers, t, ps, m);
      r.Ok? && Extends(m, r.value) && Extends(r.value, cm.mapping) && r.value.Keys == m.Keys + Fields(ps)
  {
    if ps != [] {
      var p := ps[0];
      assert p in ps;
      FieldsGrow(ps);
      assert FirstHeader(headers, Normalize(p.1)) == Some(cm.mapping[p.0]);
      var m' := m[p.0 := cm.mapping[p.0]];
      PinsApply(headers, t, ps[1..], cm, m');
      assert ApplyOverrides(headers, t, ps, m) == ApplyOverrides(headers, t, ps[1..], m');
    }
  }

  lemma FieldsGrow(ps: Overrides)
    requires ps != []
    ensures Fields(ps) == {ps[0].0} + Fields(ps[1..])
    ensures forall p :: p in ps[1..] ==> p in ps
  {
    assert forall p :: p in ps ==> p == ps[0] || p in ps[1..];
    assert ps[0] in ps;
  }

  // ---------------------------------------------------------------- respelling

  /** Each header has the normal form of its counterpart. */
  ghost predicate Respelt(hs: seq<Header>, hs': seq<Header>) {
    |hs| == |hs'| && forall i :: 0 <= i < |hs| ==> Normalize(hs[i]) == Normalize(hs'[i])
  }

  ghost predicate RespeltOverrides(os: Overrides, os': Overrides) {
    |os| == |os'| && forall i :: 0 <= i < |os| ==> os[i].0 == os'[i].0 && Normalize(os[i].1) == Normalize(os'[i].1)
  }

  /** The column a header stands for: where its normal form first occurs. */
  function ColumnOf(headers: seq<Header>, h: Header): nat {
    if headers == [] then 0
    else if Normalize(headers[0]) == Normalize(h) then 0
    else 1 + ColumnOf(headers[1..], h)
  }

  lemma {:induction false} ColumnIs(headers: seq<Header>, h: Header, i: nat)
    requires i < |headers| && Normalize(headers[i]) == Normalize(h)
    requires forall j :: 0 <= j < i ==> Normalize(headers[j]) != Normalize(h)
    ensures ColumnOf(headers, h) == i
  {
    if i > 0 {
      ColumnIs(headers[1..], h, i - 1);
    }
  }

  /** The two maps bind the same fields to headers of the same normal form, each a first header. */
  ghost predicate SameColumns(hs: seq<Header>, hs': seq<Header>, m: map<Field, Header>, m': map<Field, Header>) {
    && m.Keys == m'.Keys
    && forall f :: f in m ==>
         Normalize(m[f]) == Normalize(m'[f]) &&
         FirstHeader(hs, Normalize(m[f])) == Some(m[f]) && FirstHeader(hs', Normalize(m'[f])) == Some(m'[f])
  }

  /** Writing the headers, or the overrides, in another spelling binds the same fields to the same
      columns, and fails in the same way. */
  lemma RespellingBindsTheSameColumns(hs: seq<Header>, hs': seq<Header>, t: Table, os: Overrides, os': Overrides)
    requires Respelt(hs, hs') && RespeltOverrides(os, os')
    ensures match (Binding(hs, t, os), Binding(hs', t, os'))
      case (Ok(cm), Ok(cm')) =>
        cm.auto == cm'.auto && cm.mapping.Keys == cm'.mapping.Keys &&
        forall f :: f in cm.mapping ==> ColumnOf(hs, cm.mapping[f]) == ColumnOf(hs', cm'.mapping[f])
      case (Err(e), Err(e')) => e == e'
      case _ => false
  {
    RespeltPins(hs, hs', t, os, os', map[], map[]);
    if ApplyOverrides(hs, t, os, map[]).Ok? {
      var m, m' := ApplyOverrides(hs, t, os, map[]).value, ApplyOverrides(hs', t, os', map[]).value;
      RespeltBinds(hs, hs', t, t.known, m, m');
      var r, r' := AutoBind(hs, t, t.known, m), AutoBind(hs', t, t.known, m');
      SameUnbound(t.required, r, r');
      forall f | f in r ensures ColumnOf(hs, r[f]) == ColumnOf(hs', r'[f]) {
        SameColumnOf(hs, hs', r[f], r'[f]);
      }
    }
  }

  lemma {:induction false} SameColumnOf(hs: seq<Header>, hs': seq<Header>, h: Header, h': Header)
    requires Respelt(hs, hs') && Normalize(h) == Normalize(h')
    ensures ColumnOf(hs, h) == ColumnOf(hs', h')
  {
    if hs != [] {
      SameColumnOf(hs[1..], hs'[1..], h, h');
    }
  }

  lemma {:induction false} RespeltFirst(hs: seq<Header>, hs': seq<Header>, n: string)
    requires Respelt(hs, hs')
    ensures FirstHeader(hs, n).Some? == FirstHeader(hs', n).Some?
  {
    if hs != [] {
      RespeltFirst(hs[1..], hs'[1..], n);
    }
  }

  lemma {:induction false} RespeltPins(hs: seq<Header>, hs': seq<Header>, t: Table, os: Overrides, os': Overrides,
                                       m: map<Field, Header>, m': map<Field, Header>)
    requires Respelt(hs, hs') && RespeltOverrides(os, os') && SameColumns(hs, hs', m, m')
    ensures match (ApplyOverrides(hs, t, os, m), ApplyOverrides(hs', t, os', m'))
      case (Ok(r), Ok(r')) => SameColumns(hs, hs', r, r')
      case (Err(e), Err(e')) => e == e'
      case _ => false
  {
    if os != [] && os[0].0 in t.known {
      var n := Normalize(os[0].1);
      RespeltFirst(hs, hs', n);
      if FirstHeader(hs, n).Some? {
        RespeltPins(hs, hs', t, os[1..], os'[1..],
                    m[os[0].0 := FirstHeader(hs, n).value], m'[os[0].0 := FirstHeader(hs', n).value]);
      }
    }
  }

  lemma {:induction false} RespeltPick(hs: seq<Header>, hs': seq<Header>, m: map<Field, Header>, m': map<Field, Header>,
                                       candidates: seq<string>)
    requires Respelt(hs, hs') && SameColumns(hs, hs', m, m')
    ensures match (Pick(hs, m.Values, candidates), Pick(hs', m'.Values, candidates))
      case (Some(h), Some(h')) => Normalize(h) == Normalize(h') &&
        FirstHeader(hs, Normalize(h)) == Some(h) && FirstHeader(hs', Normalize(h')) == Some(h')
      case (None, None) => true
      case _ => false
  {
    if candidates != [] {
      var n := Normalize(candidates[0]);
      RespeltFirst(hs, hs', n);
      if FirstHeader(hs, n).Some? {
        var h, h' := FirstHeader(hs, n).value, FirstHeader(hs', n).value;
        assert h in m.Values <==> h' in m'.Values by {
          if f :| f in m && m[f] == h {
            assert m'[f] == h';
          }
          if f :| f in m' && m'[f] == h' {
            assert m[f] == h;
          }
        }
      }
      RespeltPick(hs, hs', m, m', candidates[1..]);
    }
  }

  lemma {:induction false} RespeltBinds(hs: seq<Header>, hs': seq<Header>, t: Table, fields: seq<Field>,
                                        m: map<Field, Header>, m': map<Field, Header>)
    requires Respelt(hs, hs') && SameColumns(hs, hs', m, m')
    ensures SameColumns(hs, hs', AutoBind(hs, t, fields, m), AutoBind(hs', t, fields, m'))
  {
    if fields != [] {
      RespeltPick(hs, hs', m, m', Candidates(t, fields[0]));
      RespeltBinds(hs, hs', t, fields[1..], BindOne(hs, t, fields[0], m), BindOne(hs', t, fields[0], m'));
    }
  }

  lemma {:induction false} SameUnbound(fields: seq<Field>, m: map<Field, Header>, m': map<Field, Header>)
    requires m.Keys == m'.Keys
    ensures Unbound(fields, m) == Unbound(fields, m')
  {
    if fields != [] {
      SameUnbound(fields[1..], m, m');
    }
  }
}
