/**
 * AbstractForm (av2000_terminator/navigation/base/form.py): a page whose fields
 * are laid out as nested frozendicts and tuples of Field objects. It collects the
 * fields in screen order, collects their values, flushes the modified ones and
 * commits.
 *
 * A Field is an object shared between the layout and the list of fields, so the
 * layout refers to fields by their position in `fields`.
 */
module FormPage {
  import opened Wrappers
  import opened PyText
  import opened Utf8
  import opened Errors
  import opened Session
  import opened Terminal
  import opened Form
  import Py

  /** The frozen layout loaded from the page's JSON file: a Field, a tuple or a frozendict. */
  datatype Layout = One(id: nat) | Tuple(items: seq<Layout>) | Dict(entries: seq<Entry>)
  datatype Entry = Entry(key: string, value: Layout)

  /** The fields of a layout, in the order the layout lists them. */
  function Leaves(l: Layout): seq<nat>
    decreases l
  {
    match l
    case One(id) => [id]
    case Tuple(items) => LeavesList(items)
    case Dict(entries) => LeavesEntries(entries)
  }

  function LeavesList(items: seq<Layout>): seq<nat>
    decreases items
  {
    if items == [] then [] else Leaves(items[0]) + LeavesList(items[1..])
  }

  function LeavesEntries(entries: seq<Entry>): seq<nat>
    decreases entries
  {
    if entries == [] then [] else Leaves(entries[0].value) + LeavesEntries(entries[1..])
  }

  /** Every position refers to a field. */
  predicate InRange(ids: seq<nat>, fields: seq<Field>) {
    forall k :: 0 <= k < |ids| ==> ids[k] < |fields|
  }

  /** No field is listed twice. */
  predicate Distinct(ids: seq<nat>) {
    forall j, k :: 0 <= j < k < |ids| ==> ids[j] != ids[k]
  }

  // ---------------------------------------------------------------- fields_collector

  /** The sort key of `fields_collector`: (line, start), lexicographically. */
  predicate Before(a: Descriptor, b: Descriptor) {
    a.line < b.line || (a.line == b.line && a.start <= b.start)
  }

  predicate Sorted(ids: seq<nat>, fields: seq<Field>)
    requires InRange(ids, fields)
  {
    forall j, k :: 0 <= j < k < |ids| ==> Before(fields[ids[j]].desc, fields[ids[k]].desc)
  }

  /** Two-way `heapq.merge` by (line, start); on a tie the first list goes first. */
  function Merge(a: seq<nat>, b: seq<nat>, fields: seq<Field>): (r: seq<nat>)
    requires InRange(a, fields) && InRange(b, fields)
    ensures multiset(r) == multiset(a) + multiset(b) && |r| == |a| + |b|
    ensures InRange(r, fields)
    ensures Sorted(a, fields) && Sorted(b, fields) ==> Sorted(r, fields)
    decreases |a| + |b|
  {
    if a == [] then
      assert a + b == b;
      b
    else if b == [] then
      assert a + b == a;
      a
    else if Before(fields[a[0]].desc, fields[b[0]].desc) then
      var rest := Merge(a[1..], b, fields);
      MergeFront(a, b, rest, fields);
      [a[0]] + rest
    else
      var rest := Merge(a, b[1..], fields);
      MergeFront(b, a, rest, fields);
      [b[0]] + rest
  }

  /**
   * Taking the head of `a`, when it is due no later than the head of `b`, in
   * front of the merge of the rest keeps the contents and the order.
   */
  lemma MergeFront(a: seq<nat>, b: seq<nat>, rest: seq<nat>, fields: seq<Field>)
    requires a != [] && b != [] && InRange(a, fields) && InRange(b, fields) && InRange(rest, fields)
    requires Before(fields[a[0]].desc, fields[b[0]].desc)
    requires multiset(rest) == multiset(a[1..]) + multiset(b) && |rest| == |a| - 1 + |b|
    requires Sorted(a[1..], fields) && Sorted(b, fields) ==> Sorted(rest, fields)
    ensures multiset([a[0]] + rest) == multiset(a) + multiset(b) && InRange([a[0]] + rest, fields)
    ensures Sorted(a, fields) && Sorted(b, fields) ==> Sorted([a[0]] + rest, fields)
  {
    assert a == [a[0]] + a[1..];
    assert multiset([a[0]] + rest) == multiset([a[0]]) + multiset(rest);
    assert InRange([a[0]] + rest, fields) by {
      forall k | 0 <= k < |[a[0]] + rest| ensures ([a[0]] + rest)[k] < |fields| {
        if k > 0 {
          assert ([a[0]] + rest)[k] == rest[k - 1];
        }
      }
    }
    if Sorted(a, fields) && Sorted(b, fields) {
      MergeFrontSorted(a, b, rest, fields);
    }
  }

  /** MergeFront's order half: the head of `a` is due no later than anything merged after it. */
  lemma MergeFrontSorted(a: seq<nat>, b: seq<nat>, rest: seq<nat>, fields: seq<Field>)
    requires a != [] && b != [] && InRange(a, fields) && InRange(b, fields) && InRange(rest, fields)
    requires Before(fields[a[0]].desc, fields[b[0]].desc)
    requires multiset(rest) == multiset(a[1..]) + multiset(b)
    requires Sorted(a[1..], fields) && Sorted(b, fields) ==> Sorted(rest, fields)
    requires Sorted(a, fields) && Sorted(b, fields)
    ensures Sorted([a[0]] + rest, fields)
  {
    var t := a[1..];
    forall j, k | 0 <= j < k < |t| ensures Before(fields[t[j]].desc, fields[t[k]].desc) {
      assert t[j] == a[j + 1] && t[k] == a[k + 1];
    }
    assert Sorted(t, fields);
    forall k | 0 <= k < |t| ensures Before(fields[a[0]].desc, fields[t[k]].desc) {
      assert t[k] == a[k + 1];
    }
    forall k | 0 <= k < |b| ensures Before(fields[a[0]].desc, fields[b[k]].desc) {
      if k > 0 {
        assert Before(fields[b[0]].desc, fields[b[k]].desc);
      }
    }
    MergeHead(a[0], rest, t, b, fields);
  }

  /** A head no later than everything in the two lists it was merged from keeps the result sorted. */
  lemma MergeHead(x: nat, rest: seq<nat>, a: seq<nat>, b: seq<nat>, fields: seq<Field>)
    requires x < |fields| && InRange(rest, fields) && InRange(a, fields) && InRange(b, fields)
    requires multiset(rest) == multiset(a) + multiset(b)
    requires forall k :: 0 <= k < |a| ==> Before(fields[x].desc, fields[a[k]].desc)
    requires forall k :: 0 <= k < |b| ==> Before(fields[x].desc, fields[b[k]].desc)
    requires Sorted(rest, fields)
    ensures Sorted([x] + rest, fields)
  {
    forall k | 0 <= k < |rest|
      ensures Before(fields[x].desc, fields[rest[k]].desc)
    {
      assert rest[k] in multiset(rest);
      if rest[k] in multiset(a) {
        var j :| 0 <= j < |a| && a[j] == rest[k];
      } else {
        var j :| 0 <= j < |b| && b[j] == rest[k];
      }
    }
    var s := [x] + rest;
    forall j, k | 0 <= j < k < |s|
      ensures Before(fields[s[j]].desc, fields[s[k]].desc)
    {
      if j > 0 {
        assert s[j] == rest[j - 1] && s[k] == rest[k - 1];
      } else {
        assert s[k] == rest[k - 1];
      }
    }
  }

  /**
   * `fields_collector`: each member's fields are collected, then merged with
   * `heapq.merge` on (line, start), the earlier member first on a tie.
   */
  function Collect(l: Layout, fields: seq<Field>): (r: seq<nat>)
    requires InRange(Leaves(l), fields)
    ensures multiset(r) == multiset(Leaves(l)) && InRange(r, fields) && Sorted(r, fields)
    decreases l
  {
    match l
    case One(id) => [id]
    case Tuple(items) => CollectList(items, fields)
    case Dict(entries) => CollectEntries(entries, fields)
  }

  function CollectList(items: seq<Layout>, fields: seq<Field>): (r: seq<nat>)
    requires InRange(LeavesList(items), fields)
    ensures multiset(r) == multiset(LeavesList(items)) && InRange(r, fields) && Sorted(r, fields)
    decreases items
  {
    if items == [] then []
    else
      LeavesSplit(Leaves(items[0]), LeavesList(items[1..]), fields);
      Merge(Collect(items[0], fields), CollectList(items[1..], fields), fields)
  }

  function CollectEntries(entries: seq<Entry>, fields: seq<Field>): (r: seq<nat>)
    requires InRange(LeavesEntries(entries), fields)
    ensures multiset(r) == multiset(LeavesEntries(entries)) && InRange(r, fields) && Sorted(r, fields)
    decreases entries
  {
    if entries == [] then []
    else
      LeavesSplit(Leaves(entries[0].value), LeavesEntries(entries[1..]), fields);
      Merge(Collect(entries[0].value, fields), CollectEntries(entries[1..], fields), fields)
  }

  lemma LeavesSplit(a: seq<nat>, b: seq<nat>, fields: seq<Field>)
    requires InRange(a + b, fields)
    ensures InRange(a, fields) && InRange(b, fields)
    ensures multiset(a + b) == multiset(a) + multiset(b)
  {
    assert forall k :: 0 <= k < |a| ==> a[k] == (a + b)[k];
    assert forall k :: 0 <= k < |b| ==> b[k] == (a + b)[|a| + k];
  }

  /** The collected list holds the layout's fields once each when the layout lists each once. */
  lemma {:induction false} CollectDistinct(l: Layout, fields: seq<Field>)
    requires InRange(Leaves(l), fields) && Distinct(Leaves(l))
    ensures Distinct(Collect(l, fields))
  {
    var r := Collect(l, fields);
    forall j, k | 0 <= j < k < |r|
      ensures r[j] != r[k]
    {
      if r[j] == r[k] {
        assert multiset(r)[r[j]] >= 2 by {
          assert r == r[..j] + [r[j]] + r[j + 1..k] + [r[k]] + r[k + 1..];
        }
        DistinctCount(Leaves(l), r[j]);
      }
    }
  }

  /** In a list without repeats every value occurs at most once. */
  lemma {:induction false} DistinctCount(s: seq<nat>, x: nat)
    requires Distinct(s)
    ensures multiset(s)[x] <= 1
  {
    if s != [] {
      assert s == [s[0]] + s[1..];
      assert Distinct(s[1..]) by {
        forall j, k | 0 <= j < k < |s[1..]| ensures s[1..][j] != s[1..][k] {
          assert s[1..][j] == s[j + 1] && s[1..][k] == s[k + 1];
        }
      }
      DistinctCount(s[1..], x);
      if s[0] == x {
        assert x !in s[1..] by {
          forall k | 0 <= k < |s[1..]| ensures s[1..][k] != x {
            assert s[1..][k] == s[k + 1];
          }
        }
      }
    }
  }

  // ---------------------------------------------------------------- fields_values_collector

  /** What `fields_values_collector` returns: field data, lists and dicts. */
  datatype Val = Text(s: string) | List(items: seq<Val>) | Map(entries: seq<ValEntry>)
  datatype ValEntry = ValEntry(key: string, value: Val)

  /** `bool(v)`: the empty string, list and dict are false. */
  predicate Truthy(v: Val) {
    match v
    case Text(s) => s != []
    case List(items) => items != []
    case Map(entries) => entries != []
  }

  /** `any(values)`. */
  predicate AnyTruthy(vs: seq<Val>) {
    exists k :: 0 <= k < |vs| && Truthy(vs[k])
  }

  /** The data of a field: its cells on the screen, stripped. */
  function DataOf(lines: Display, fields: seq<Field>, id: nat): Result<string, Exc>
    requires id < |fields|
  {
    Read(lines, fields[id].desc, false)
  }

  /**
   * `fields_values_collector`: a dict maps each key to its member's value, a
   * tuple becomes the list of its members' values or `[]` when none of them is
   * truthy, and a field gives its data.
   */
  function Values(l: Layout, fields: seq<Field>, lines: Display): (r: Result<Val, Exc>)
    requires InRange(Leaves(l), fields)
    ensures r.Ok? <==> forall k :: 0 <= k < |Leaves(l)| ==> DataOf(lines, fields, Leaves(l)[k]).Ok?
    ensures r.Ok? && l.Tuple? ==> r.value.List? && (r.value.items == [] || |r.value.items| == |l.items|)
    ensures r.Ok? && l.Dict? ==> r.value.Map? && |r.value.entries| == |l.entries|
    decreases l
  {
    match l
    case One(id) =>
      assert Leaves(l)[0] == id;
      match DataOf(lines, fields, id) { case Ok(s) => Ok(Text(s)) case Err(e) => Err(e) }
    case Tuple(items) =>
      assert Leaves(l) == LeavesList(items);
      var vs := ValuesList(items, fields, lines);
      if vs.Err? then Err(vs.error)
      else if AnyTruthy(vs.value) then Ok(List(vs.value))
      else Ok(List([]))
    case Dict(entries) =>
      assert Leaves(l) == LeavesEntries(entries);
      var es := ValuesEntries(entries, fields, lines);
      if es.Err? then Err(es.error) else Ok(Map(es.value))
  }

  function ValuesList(items: seq<Layout>, fields: seq<Field>, lines: Display): (r: Result<seq<Val>, Exc>)
    requires InRange(LeavesList(items), fields)
    ensures r.Ok? <==> forall k :: 0 <= k < |LeavesList(items)| ==> DataOf(lines, fields, LeavesList(items)[k]).Ok?
    ensures r.Ok? ==> |r.value| == |items|
    decreases items
  {
    if items == [] then Ok([])
    else
      LeavesSplit(Leaves(items[0]), LeavesList(items[1..]), fields);
      ReadsSplit(Leaves(items[0]), LeavesList(items[1..]), fields, lines);
      assert LeavesList(items) == Leaves(items[0]) + LeavesList(items[1..]);
      var first := Values(items[0], fields, lines);
      var rest := ValuesList(items[1..], fields, lines);
      if first.Err? then Err(first.error)
      else if rest.Err? then Err(rest.error)
      else Ok([first.value] + rest.value)
  }

  function ValuesEntries(entries: seq<Entry>, fields: seq<Field>, lines: Display): (r: Result<seq<ValEntry>, Exc>)
    requires InRange(LeavesEntries(entries), fields)
    ensures r.Ok? <==> forall k :: 0 <= k < |LeavesEntries(entries)| ==> DataOf(lines, fields, LeavesEntries(entries)[k]).Ok?
    ensures r.Ok? ==> |r.value| == |entries|
    ensures r.Ok? ==> forall k :: 0 <= k < |entries| ==> r.value[k].key == entries[k].key
    decreases entries
  {
    if entries == [] then Ok([])
    else
      LeavesSplit(Leaves(entries[0].value), LeavesEntries(entries[1..]), fields);
      ReadsSplit(Leaves(entries[0].value), LeavesEntries(entries[1..]), fields, lines);
      assert LeavesEntries(entries) == Leaves(entries[0].value) + LeavesEntries(entries[1..]);
      var first := Values(entries[0].value, fields, lines);
      var rest := ValuesEntries(entries[1..], fields, lines);
      if first.Err? then Err(first.error)
      else if rest.Err? then Err(rest.error)
      else
        EntriesKeys(entries, first.value, rest.value);
        Ok([ValEntry(entries[0].key, first.value)] + rest.value)
  }

  /** The first entry's key, then the rest's keys, in order. */
  lemma EntriesKeys(entries: seq<Entry>, v: Val, rest: seq<ValEntry>)
    requires entries != [] && |rest| == |entries| - 1
    requires forall k :: 0 <= k < |entries[1..]| ==> rest[k].key == entries[1..][k].key
    ensures forall k :: 0 <= k < |entries| ==> ([ValEntry(entries[0].key, v)] + rest)[k].key == entries[k].key
  {
    forall k | 0 <= k < |entries| ensures ([ValEntry(entries[0].key, v)] + rest)[k].key == entries[k].key {
      if k > 0 {
        assert ([ValEntry(entries[0].key, v)] + rest)[k] == rest[k - 1] && entries[k] == entries[1..][k - 1];
      }
    }
  }

  /** Every field of a concatenation reads when every field of both parts does. */
  lemma ReadsSplit(a: seq<nat>, b: seq<nat>, fields: seq<Field>, lines: Display)
    requires InRange(a + b, fields) && InRange(a, fields) && InRange(b, fields)
    ensures (forall k :: 0 <= k < |a + b| ==> DataOf(lines, fields, (a + b)[k]).Ok?) <==>
      (forall k :: 0 <= k < |a| ==> DataOf(lines, fields, a[k]).Ok?) &&
      (forall k :: 0 <= k < |b| ==> DataOf(lines, fields, b[k]).Ok?)
  {
    assert forall k :: 0 <= k < |a| ==> a[k] == (a + b)[k];
    assert forall k :: 0 <= k < |b| ==> b[k] == (a + b)[|a| + k];
  }

  /** The texts a collected value holds. */
  ghost function Texts(v: Val): set<string>
    decreases v
  {
    match v
    case Text(s) => {s}
    case List(items) => TextsList(items)
    case Map(entries) => TextsEntries(entries)
  }

  ghost function TextsList(vs: seq<Val>): set<string>
    decreases vs
  {
    if vs == [] then {} else Texts(vs[0]) + TextsList(vs[1..])
  }

  ghost function TextsEntries(es: seq<ValEntry>): set<string>
    decreases es
  {
    if es == [] then {} else Texts(es[0].value) + TextsEntries(es[1..])
  }

  /** A value holding a non-empty text is truthy, so no tuple around it collapses. */
  lemma {:induction false} NonEmptyTextIsTruthy(v: Val, s: string)
    requires s in Texts(v) && s != []
    ensures Truthy(v)
  {
  }

  /** A text is in a list's texts exactly when it is in one of the members' texts. */
  lemma {:induction false} TextsListMember(vs: seq<Val>, s: string)
    ensures s in TextsList(vs) <==> exists k :: 0 <= k < |vs| && s in Texts(vs[k])
    decreases vs
  {
    if vs != [] {
      TextsListMember(vs[1..], s);
      if exists k :: 0 <= k < |vs| && s in Texts(vs[k]) {
        var k :| 0 <= k < |vs| && s in Texts(vs[k]);
        if k > 0 {
          assert vs[1..][k - 1] == vs[k];
        }
      }
      if s in TextsList(vs[1..]) {
        var k :| 0 <= k < |vs[1..]| && s in Texts(vs[1..][k]);
        assert vs[1..][k] == vs[k + 1];
      }
    }
  }

  /** The data of one of the layout's fields. */
  ghost predicate IsData(s: string, ids: seq<nat>, fields: seq<Field>, lines: Display)
    requires InRange(ids, fields)
  {
    exists k :: 0 <= k < |ids| && DataOf(lines, fields, ids[k]) == Ok(s)
  }

  lemma IsDataSplit(s: string, a: seq<nat>, b: seq<nat>, fields: seq<Field>, lines: Display)
    requires InRange(a + b, fields) && InRange(a, fields) && InRange(b, fields)
    ensures IsData(s, a + b, fields, lines) <==> IsData(s, a, fields, lines) || IsData(s, b, fields, lines)
  {
    if IsData(s, a + b, fields, lines) {
      var k :| 0 <= k < |a + b| && DataOf(lines, fields, (a + b)[k]) == Ok(s);
      if k < |a| {
        assert (a + b)[k] == a[k];
      } else {
        assert (a + b)[k] == b[k - |a|];
      }
    }
    if IsData(s, a, fields, lines) {
      var k :| 0 <= k < |a| && DataOf(lines, fields, a[k]) == Ok(s);
      assert (a + b)[k] == a[k];
    }
    if IsData(s, b, fields, lines) {
      var k :| 0 <= k < |b| && DataOf(lines, fields, b[k]) == Ok(s);
      assert (a + b)[|a| + k] == b[k];
    }
  }

  /**
   * Collecting the values loses no field data that is not empty, and makes none
   * up: every text in the result is the data of one of the layout's fields.
   */
  lemma {:induction false} ValuesKeepData(l: Layout, fields: seq<Field>, lines: Display, s: string)
    requires InRange(Leaves(l), fields) && Values(l, fields, lines).Ok?
    ensures s in Texts(Values(l, fields, lines).value) ==> IsData(s, Leaves(l), fields, lines)
    ensures s != [] && IsData(s, Leaves(l), fields, lines) ==> s in Texts(Values(l, fields, lines).value)
    decreases l
  {
    match l
    case One(id) =>
      assert Leaves(l) == [id];
      if s in Texts(Values(l, fields, lines).value) {
        assert DataOf(lines, fields, Leaves(l)[0]) == Ok(s);
      }
      if IsData(s, Leaves(l), fields, lines) {
        var k :| 0 <= k < |Leaves(l)| && DataOf(lines, fields, Leaves(l)[k]) == Ok(s);
        assert k == 0;
      }
    case Tuple(items) =>
      ValuesListKeepData(items, fields, lines, s);
      var vs := ValuesList(items, fields, lines).value;
      if s != [] && IsData(s, Leaves(l), fields, lines) {
        TextsListMember(vs, s);
        var k :| 0 <= k < |vs| && s in Texts(vs[k]);
        NonEmptyTextIsTruthy(vs[k], s);
      }
    case Dict(entries) =>
      ValuesEntriesKeepData(entries, fields, lines, s);
  }

  lemma {:induction false} ValuesListKeepData(items: seq<Layout>, fields: seq<Field>, lines: Display, s: string)
    requires InRange(LeavesList(items), fields) && ValuesList(items, fields, lines).Ok?
    ensures s in TextsList(ValuesList(items, fields, lines).value) ==> IsData(s, LeavesList(items), fields, lines)
    ensures s != [] && IsData(s, LeavesList(items), fields, lines) ==> s in TextsList(ValuesList(items, fields, lines).value)
    decreases items
  {
    if items != [] {
      var a := Leaves(items[0]);
      var b := LeavesList(items[1..]);
      LeavesSplit(a, b, fields);
      ReadsSplit(a, b, fields, lines);
      IsDataSplit(s, a, b, fields, lines);
      ValuesKeepData(items[0], fields, lines, s);
      ValuesListKeepData(items[1..], fields, lines, s);
      var vs := ValuesList(items, fields, lines).value;
      assert vs == [Values(items[0], fields, lines).value] + ValuesList(items[1..], fields, lines).value;
      assert vs[1..] == ValuesList(items[1..], fields, lines).value;
    }
  }

  lemma {:induction false} ValuesEntriesKeepData(entries: seq<Entry>, fields: seq<Field>, lines: Display, s: string)
    requires InRange(LeavesEntries(entries), fields) && ValuesEntries(entries, fields, lines).Ok?
    ensures s in TextsEntries(ValuesEntries(entries, fields, lines).value) ==> IsData(s, LeavesEntries(entries), fields, lines)
    ensures s != [] && IsData(s, LeavesEntries(entries), fields, lines) ==> s in TextsEntries(ValuesEntries(entries, fields, lines).value)
    decreases entries
  {
    if entries != [] {
      var a := Leaves(entries[0].value);
      var b := LeavesEntries(entries[1..]);
      LeavesSplit(a, b, fields);
      ReadsSplit(a, b, fields, lines);
      IsDataSplit(s, a, b, fields, lines);
      ValuesKeepData(entries[0].value, fields, lines, s);
      ValuesEntriesKeepData(entries[1..], fields, lines, s);
      var es := ValuesEntries(entries, fields, lines).value;
      assert es == [ValEntry(entries[0].key, Values(entries[0].value, fields, lines).value)] + ValuesEntries(entries[1..], fields, lines).value;
      assert es[1..] == ValuesEntries(entries[1..], fields, lines).value;
    }
  }

  // ---------------------------------------------------------------- the form

  /** A form: its fields, their layout, and the shared "modified" flag. */
  datatype Page = Page(fields: seq<Field>, layout: Layout, modified: bool)

  /** The layout lists every field at most once and refers only to existing fields. */
  predicate Valid(p: Page) {
    InRange(Leaves(p.layout), p.fields) && Distinct(Leaves(p.layout))
  }

  /** `fields_list`: the fields in screen order. */
  function FieldsList(p: Page): (r: seq<nat>)
    requires Valid(p)
    ensures InRange(r, p.fields) && Distinct(r) && Sorted(r, p.fields)
    ensures multiset(r) == multiset(Leaves(p.layout))
  {
    CollectDistinct(p.layout, p.fields);
    Collect(p.layout, p.fields)
  }

  /**
   * Assigning `data` to one of the form's fields: a read-only field raises and
   * nothing changes; otherwise that field's buffer is set and the form's flag
   * raised. No other field changes, and the flag never goes back down.
   */
  function AssignField(p: Page, id: nat, v: Py.Value): (r: Result<Page, Exc>)
    requires id < |p.fields|
    ensures r.Err? <==> !p.fields[id].desc.writable
    ensures r.Err? ==> r.error == ReadOnlyField(p.fields[id].desc.name)
    ensures r.Ok? ==>
      && r.value.modified && r.value.layout == p.layout && |r.value.fields| == |p.fields|
      && r.value.fields[id] == p.fields[id].(buffer := Some(Py.ToStr(v)))
      && forall k :: 0 <= k < |p.fields| && k != id ==> r.value.fields[k] == p.fields[k]
  {
    match Assign(p.fields[id], p.modified, v)
    case Err(e) => Err(e)
    case Ok((f, m)) => Ok(p.(fields := p.fields[id := f], modified := m))
  }

  /** A field's part in a flush: its DELETEs and its buffer, if it has one. */
  function Writes(f: Field, delete: string): seq<string> {
    if f.buffer.Some? then [RepeatText(delete, f.desc.size), f.buffer.value] else []
  }

  /** What flushing the listed fields types, in the order listed. */
  function Pending(fields: seq<Field>, ids: seq<nat>, delete: string): seq<string>
    requires InRange(ids, fields)
  {
    if ids == [] then [] else Writes(fields[ids[0]], delete) + Pending(fields, ids[1..], delete)
  }

  /** A field outside the list plays no part in what flushing the list types. */
  lemma {:induction false} PendingFrame(fields: seq<Field>, ids: seq<nat>, i: nat, f: Field, delete: string)
    requires InRange(ids, fields) && i < |fields| && i !in ids
    ensures Pending(fields[i := f], ids, delete) == Pending(fields, ids, delete)
  {
    if ids != [] {
      assert ids[1..] == ids[1..];
      assert i !in ids[1..];
      PendingFrame(fields, ids[1..], i, f, delete);
    }
  }

  /** The outcome of flushing a form: the terminal, the fields, and a value or an exception. */
  datatype FlushRun = FlushRun(t: Term, fields: seq<Field>, r: Result<(), Exc>)

  /**
   * What flushing the listed fields leaves: only listed fields change, each
   * only by emptying its buffer; on success all of them are empty and the
   * typing is each dirty field's DELETEs and buffer, in list order.
   */
  predicate Flushed(t: Term, fields: seq<Field>, ids: seq<nat>, delete: string, r: FlushRun)
    requires InRange(ids, fields)
  {
    && |r.fields| == |fields|
    && (forall k :: 0 <= k < |fields| ==> r.fields[k] == fields[k] || r.fields[k] == fields[k].(buffer := None))
    && (forall k :: 0 <= k < |fields| && k !in ids ==> r.fields[k] == fields[k])
    && (r.r.Ok? ==> forall k :: 0 <= k < |ids| ==> r.fields[ids[k]] == fields[ids[k]].(buffer := None))
    && (r.r.Ok? ==> Typing(r.t.log) == Typing(t.log) + Pending(fields, ids, delete))
    && r.t.closed == t.closed
  }

  /**
   * The loop of `AbstractForm.flush` over the listed fields: a field that needs
   * no flush is skipped, the others are flushed in turn, and the first exception
   * stops the loop.
   */
  function FlushFields(t: Term, env: Env, fields: seq<Field>, ids: seq<nat>, delete: string): (r: FlushRun)
    requires InRange(ids, fields) && Distinct(ids)
    ensures Flushed(t, fields, ids, delete, r)
    decreases |ids|
  {
    if ids == [] then FlushRun(t, fields, Ok(()))
    else
      var i := ids[0];
      TailDistinct(ids);
      if !FlushRequired(fields[i]) then
        var rest := FlushFields(t, env, fields, ids[1..], delete);
        FlushSkip(t, fields, ids, delete, rest);
        rest
      else
        var one := FlushField(t, env, fields[i], delete);
        if one.r.Err? then
          FlushRun(one.t, fields, one.r)
        else
          var rest := FlushFields(one.t, env, fields[i := one.field], ids[1..], delete);
          FlushStep(t, fields, ids, delete, one.t, one.field, rest);
          rest
  }

  /**
   * On a closed terminal the loop types nothing: it succeeds exactly when no
   * listed field needs a flush, and otherwise the first dirty field raises,
   * DriverClosed from its seek (or ReadOnlyFieldException from its guard).
   */
  lemma {:induction false} FlushClosed(t: Term, env: Env, fields: seq<Field>, ids: seq<nat>, delete: string)
    requires InRange(ids, fields) && Distinct(ids) && t.closed
    ensures var r := FlushFields(t, env, fields, ids, delete);
      && Typing(r.t.log) == Typing(t.log)
      && (r.r.Ok? <==> forall k :: 0 <= k < |ids| ==> !FlushRequired(fields[ids[k]]))
      && (r.r.Err? ==> r.r.error == DriverClosed || r.r.error.ReadOnlyField?)
    decreases |ids|
  {
    if ids != [] {
      TailDistinct(ids);
      var i := ids[0];
      if !FlushRequired(fields[i]) {
        FlushClosed(t, env, fields, ids[1..], delete);
        var r := FlushFields(t, env, fields, ids, delete);
        assert r == FlushFields(t, env, fields, ids[1..], delete);
        assert forall k :: 1 <= k < |ids| ==> ids[k] == ids[1..][k - 1];
      } else if fields[i].desc.writable {
        assert FlushField(t, env, fields[i], delete) == FieldRun(t, fields[i], Err(DriverClosed));
      } else {
        assert FlushField(t, env, fields[i], delete) == FieldRun(t, fields[i], Err(ReadOnlyField(fields[i].desc.name)));
      }
    }
  }

  /** The tail of a list without repeats has none, and lacks the head. */
  lemma TailDistinct(ids: seq<nat>)
    requires ids != [] && Distinct(ids)
    ensures Distinct(ids[1..]) && ids[0] !in ids[1..]
  {
    assert forall k :: 0 <= k < |ids[1..]| ==> ids[1..][k] == ids[k + 1];
  }

  /** A clean field at the head of the list is skipped. */
  lemma FlushSkip(t: Term, fields: seq<Field>, ids: seq<nat>, delete: string, rest: FlushRun)
    requires ids != [] && InRange(ids, fields) && ids[0] !in ids[1..] && !FlushRequired(fields[ids[0]])
    requires Flushed(t, fields, ids[1..], delete, rest)
    ensures Flushed(t, fields, ids, delete, rest)
  {
    var i := ids[0];
    assert fields[i] == fields[i].(buffer := None);
    FlushStepFields(fields, ids, fields[i], rest.fields);
    if rest.r.Ok? {
      assert Pending(fields, ids, delete) == Pending(fields, ids[1..], delete);
      FlushStepEmpties(fields, ids, fields[i], rest.fields);
    }
  }

  /** A dirty field at the head of the list is flushed, then the rest of the list. */
  lemma FlushStep(t: Term, fields: seq<Field>, ids: seq<nat>, delete: string, t1: Term, f1: Field, rest: FlushRun)
    requires ids != [] && InRange(ids, fields) && ids[0] !in ids[1..] && FlushRequired(fields[ids[0]])
    requires f1 == fields[ids[0]].(buffer := None) && t1.closed == t.closed
    requires Typing(t1.log) == Typing(t.log) + Writes(fields[ids[0]], delete)
    requires Flushed(t1, fields[ids[0] := f1], ids[1..], delete, rest)
    ensures Flushed(t, fields, ids, delete, rest)
  {
    FlushStepFields(fields, ids, f1, rest.fields);
    if rest.r.Ok? {
      FlushStepEmpties(fields, ids, f1, rest.fields);
      FlushStepTyping(t, fields, ids, delete, t1, f1, rest.t);
    }
  }

  /** FlushStep's frame: only listed fields change, each only by emptying its buffer. */
  lemma FlushStepFields(fields: seq<Field>, ids: seq<nat>, f1: Field, out: seq<Field>)
    requires ids != [] && InRange(ids, fields) && ids[0] !in ids[1..]
    requires f1 == fields[ids[0]].(buffer := None)
    requires var fields1 := fields[ids[0] := f1];
      && |out| == |fields1|
      && (forall k :: 0 <= k < |fields1| ==> out[k] == fields1[k] || out[k] == fields1[k].(buffer := None))
      && (forall k :: 0 <= k < |fields1| && k !in ids[1..] ==> out[k] == fields1[k])
    ensures |out| == |fields|
    ensures forall k :: 0 <= k < |fields| ==> out[k] == fields[k] || out[k] == fields[k].(buffer := None)
    ensures forall k :: 0 <= k < |fields| && k !in ids ==> out[k] == fields[k]
  {
    var fields1 := fields[ids[0] := f1];
    forall k | 0 <= k < |fields| ensures out[k] == fields[k] || out[k] == fields[k].(buffer := None) {
      assert fields1[k] == fields[k] || fields1[k] == fields[k].(buffer := None);
    }
    forall k | 0 <= k < |fields| && k !in ids ensures out[k] == fields[k] {
      assert k !in ids[1..] && k != ids[0];
    }
  }

  /** FlushStep on success: every listed field ends up empty. */
  lemma FlushStepEmpties(fields: seq<Field>, ids: seq<nat>, f1: Field, out: seq<Field>)
    requires ids != [] && InRange(ids, fields) && ids[0] !in ids[1..]
    requires f1 == fields[ids[0]].(buffer := None)
    requires var fields1 := fields[ids[0] := f1];
      && |out| == |fields1|
      && (forall k :: 0 <= k < |fields1| && k !in ids[1..] ==> out[k] == fields1[k])
      && (forall k :: 0 <= k < |ids[1..]| ==> out[ids[1..][k]] == fields1[ids[1..][k]].(buffer := None))
    ensures forall k :: 0 <= k < |ids| ==> out[ids[k]] == fields[ids[k]].(buffer := None)
  {
    var i := ids[0];
    forall k | 0 <= k < |ids| ensures out[ids[k]] == fields[ids[k]].(buffer := None) {
      if k > 0 {
        assert ids[k] == ids[1..][k - 1] && ids[k] != i;
      }
    }
  }

  /** FlushStep on success: the head's writes, then the rest's. */
  lemma FlushStepTyping(t: Term, fields: seq<Field>, ids: seq<nat>, delete: string, t1: Term, f1: Field, t2: Term)
    requires ids != [] && InRange(ids, fields) && ids[0] !in ids[1..]
    requires Typing(t1.log) == Typing(t.log) + Writes(fields[ids[0]], delete)
    requires Typing(t2.log) == Typing(t1.log) + Pending(fields[ids[0] := f1], ids[1..], delete)
    ensures Typing(t2.log) == Typing(t.log) + Pending(fields, ids, delete)
  {
    var i := ids[0];
    PendingFrame(fields, ids[1..], i, f1, delete);
    assert Pending(fields, ids, delete) == Writes(fields[i], delete) + Pending(fields, ids[1..], delete);
    assert Typing(t.log) + Writes(fields[i], delete) + Pending(fields, ids[1..], delete)
        == Typing(t.log) + (Writes(fields[i], delete) + Pending(fields, ids[1..], delete));
  }

  /** `AbstractForm.flush`: flush what needs flushing, in screen order. */
  function Flush(t: Term, env: Env, p: Page, delete: string): (r: (Term, Page, Result<(), Exc>))
    requires Valid(p)
    ensures Valid(r.1) && r.1.layout == p.layout && r.1.modified == p.modified
    ensures r.2.Ok? ==> forall k :: k in Leaves(p.layout) ==> !FlushRequired(r.1.fields[k])
    ensures r.2.Ok? ==> Typing(r.0.log) == Typing(t.log) + Pending(p.fields, FieldsList(p), delete)
    ensures |r.1.fields| == |p.fields|
    ensures forall k :: 0 <= k < |p.fields| ==> r.1.fields[k].desc == p.fields[k].desc
    ensures r.0.closed == t.closed
    ensures t.closed ==>
      && Typing(r.0.log) == Typing(t.log)
      && (r.2.Ok? <==> forall k :: 0 <= k < |FieldsList(p)| ==> !FlushRequired(p.fields[FieldsList(p)[k]]))
      && (r.2.Err? ==> r.2.error == DriverClosed || r.2.error.ReadOnlyField?)
  {
    var ids := FieldsList(p);
    var f := FlushFields(t, env, p.fields, ids, delete);
    FlushedAll(p, ids, f);
    if t.closed then
      FlushClosed(t, env, p.fields, ids, delete);
      (f.t, p.(fields := f.fields), f.r)
    else
      (f.t, p.(fields := f.fields), f.r)
  }

  /** After a successful loop over the collected list no field of the layout needs flushing. */
  lemma FlushedAll(p: Page, ids: seq<nat>, f: FlushRun)
    requires Valid(p) && ids == FieldsList(p) && |f.fields| == |p.fields|
    requires forall k :: 0 <= k < |p.fields| ==> f.fields[k] == p.fields[k] || f.fields[k] == p.fields[k].(buffer := None)
    requires f.r.Ok? ==> forall k :: 0 <= k < |ids| ==> f.fields[ids[k]] == p.fields[ids[k]].(buffer := None)
    ensures Valid(p.(fields := f.fields))
    ensures f.r.Ok? ==> forall k :: k in Leaves(p.layout) ==> !FlushRequired(f.fields[k])
  {
    var leaves := Leaves(p.layout);
    forall k | k in leaves
      ensures k in ids
    {
      assert k in multiset(leaves);
    }
    if f.r.Ok? {
      forall k | k in leaves
        ensures !FlushRequired(f.fields[k])
      {
        var j :| 0 <= j < |ids| && ids[j] == k;
      }
    }
  }

  /** `commit_changes`: flush, then `_save_and_back` sends the return key. */
  function Commit(t: Term, env: Env, p: Page, delete: string): (r: (Term, Page, Result<(), Exc>))
    requires Valid(p)
    ensures Valid(r.1) && r.1.layout == p.layout && r.1.modified == p.modified
    ensures r.2.Ok? ==>
      && !t.closed
      && Typing(r.0.log) == Typing(t.log) + Pending(p.fields, FieldsList(p), delete)
      && Sends(r.0.log) == Sends(Flush(t, env, p, delete).0.log) + [Encode(ReturnChar)]
    ensures Flush(t, env, p, delete).2.Err? ==> r == Flush(t, env, p, delete)
    ensures t.closed ==>
      && r.2.Err? && (r.2.error == DriverClosed || r.2.error.ReadOnlyField?)
      && Typing(r.0.log) == Typing(t.log)
  {
    var (t1, p1, res) := Flush(t, env, p, delete);
    if res.Err? then (t1, p1, res)
    else
      var s := SendSeq(t1, env, ReturnChar);
      SendSeqLog(t1, env, ReturnChar);
      TypingSilent(t1.log, Sent(Encode(ReturnChar)));
      TypingSilent(t1.log + [Sent(Encode(ReturnChar))], Updated(|Recv(env.polls(t1.updates))|));
      assert !t1.closed ==> s.t.log == t1.log + [Sent(Encode(ReturnChar))] + [Updated(|Recv(env.polls(t1.updates))|)];
      (s.t, p1, s.r)
  }
}
