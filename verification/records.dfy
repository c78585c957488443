/**
 * The data dictionaries the detail pages build out of the screen with Xtractor:
 * a record layout (which row and columns each key is read from, and with which
 * conversion), its evaluation in Python's order, and the semantics of a dict
 * literal that repeats a key (the first position, the last value).
 */
module Records {
  import opened Wrappers
  import opened PyText
  import opened Errors
  import opened Xtractor
  import Seqs

  /** The values a page dictionary holds: None, str, int, list or tuple, dict. */
  datatype Data =
    | Null
    | Text(s: string)
    | Num(i: int)
    | Real(text: string)
    | Items(items: seq<Data>)
    | Dict(entries: seq<Entry>)

  datatype Entry = Entry(key: string, value: Data)

  /** `bool(d)`. */
  predicate Truthy(d: Data) {
    match d
    case Null => false
    case Text(s) => s != []
    case Num(i) => i != 0
    case Real(x) => !IsZeroDecimal(x)
    case Items(xs) => xs != []
    case Dict(es) => es != []
  }

  // ---------------------------------------------------------------- dict literals

  function KeysOf(es: seq<Entry>): (ks: seq<string>)
    ensures |ks| == |es| && forall i :: 0 <= i < |es| ==> ks[i] == es[i].key
  {
    if es == [] then [] else [es[0].key] + KeysOf(es[1..])
  }

  /** `d[k] = v` on a dict kept as its entries in insertion order. */
  function Put(es: seq<Entry>, k: string, v: Data): (r: seq<Entry>)
    ensures KeysOf(r) == if k in KeysOf(es) then KeysOf(es) else KeysOf(es) + [k]
    ensures forall i :: 0 <= i < |es| && es[i].key != k ==> r[i] == es[i]
  {
    if es == [] then [Entry(k, v)]
    else if es[0].key == k then [Entry(k, v)] + es[1..]
    else
      var rest := Put(es[1..], k, v);
      assert KeysOf(es) == [es[0].key] + KeysOf(es[1..]);
      assert KeysOf([es[0]] + rest) == [es[0].key] + KeysOf(rest);
      assert forall i :: 0 <= i < |es| && es[i].key != k ==> ([es[0]] + rest)[i] == es[i] by {
        forall i | 1 <= i < |es| && es[i].key != k ensures ([es[0]] + rest)[i] == es[i] {
          assert es[1..][i - 1] == es[i];
        }
      }
      [es[0]] + rest
  }

  /** A dict literal `{k1: v1, k2: v2, ...}`: entries are inserted in order. */
  function DictOf(es: seq<Entry>): seq<Entry>
    decreases |es|
  {
    if es == [] then [] else Put(DictOf(es[..|es| - 1]), es[|es| - 1].key, es[|es| - 1].value)
  }

  /** `d.get(k)`. */
  function Lookup(es: seq<Entry>, k: string): Option<Data> {
    if es == [] then None else if es[0].key == k then Some(es[0].value) else Lookup(es[1..], k)
  }

  /** The value the LAST occurrence of `k` in a literal gives it. */
  function LastValue(es: seq<Entry>, k: string): Option<Data>
    decreases |es|
  {
    if es == [] then None
    else if es[|es| - 1].key == k then Some(es[|es| - 1].value)
    else LastValue(es[..|es| - 1], k)
  }

  lemma {:induction false} LookupPut(es: seq<Entry>, k: string, v: Data, q: string)
    ensures Lookup(Put(es, k, v), q) == if q == k then Some(v) else Lookup(es, q)
  {
    if es != [] && es[0].key != k {
      LookupPut(es[1..], k, v, q);
    }
  }

  /** In a dict literal that repeats a key, the last value wins. */
  lemma {:induction false} LastValueWins(es: seq<Entry>, k: string)
    ensures Lookup(DictOf(es), k) == LastValue(es, k)
    decreases |es|
  {
    if es != [] {
      var init := es[..|es| - 1];
      LastValueWins(init, k);
      LookupPut(DictOf(init), es[|es| - 1].key, es[|es| - 1].value, k);
    }
  }

  predicate Distinct(ks: seq<string>) {
    forall i, j :: 0 <= i < j < |ks| ==> ks[i] != ks[j]
  }

  /** A literal holds each key once, and exactly the keys it names. */
  lemma {:induction false} DictOfKeys(es: seq<Entry>)
    ensures Distinct(KeysOf(DictOf(es)))
    ensures forall k :: k in KeysOf(DictOf(es)) <==> k in KeysOf(es)
    decreases |es|
  {
    if es != [] {
      var init := es[..|es| - 1];
      var e := es[|es| - 1];
      DictOfKeys(init);
      assert KeysOf(es) == KeysOf(init) + [e.key] by {
        assert es == init + [e];
      }
      var ks := KeysOf(DictOf(init));
      if e.key !in ks {
        assert KeysOf(DictOf(es)) == ks + [e.key];
        assert Distinct(ks + [e.key]) by {
          forall i | 0 <= i < |ks| ensures ks[i] != e.key {
          }
        }
      }
    }
  }

  // ---------------------------------------------------------------- record layouts

  /** The `to_type` of a field: `str` (the default), `int` or `float`. */
  datatype ToType = AsText | AsNumber | AsFloat

  predicate AllDigits(s: string) {
    forall i :: 0 <= i < |s| ==> IsDigit(s[i])
  }

  /** The body of a decimal literal after its sign: `ddd`, `ddd.`, `.ddd` or `ddd.ddd`. */
  predicate UnsignedDecimal(s: string) {
    var d := Find(s, ".");
    if d == |s| then s != [] && AllDigits(s)
    else AllDigits(s[..d]) && AllDigits(s[d + 1..]) && |s| >= 2
  }

  /** A decimal literal `float()` accepts (an optional sign, then the body). */
  predicate DecimalText(s: string) {
    if s != [] && (s[0] == '+' || s[0] == '-') then UnsignedDecimal(s[1..]) else UnsignedDecimal(s)
  }

  /** A decimal literal of value zero: no digit other than 0. */
  predicate IsZeroDecimal(s: string) {
    forall i :: 0 <= i < |s| ==> !('1' <= s[i] <= '9')
  }

  /** `float`, as a conversion: the value is kept as its literal text. */
  function AsReal(s: string): (r: Result<string, Exc>)
    ensures r.Ok? <==> DecimalText(s)
    ensures r.Ok? ==> r.value == s
    ensures r.Err? ==> r.error == ValueError
  {
    if DecimalText(s) then Ok(s) else Err(ValueError)
  }

  /**
   * A record layout:
   *  - `Col`: `key: xt.x(row, index[, int])`;
   *  - `Fixed`: a constant string;
   *  - `Group`: a nested dict literal;
   *  - `Tuple`: a tuple of values (keys are not used);
   *  - `KeptIf`: a list comprehension `[item for ... if test]`.
   */
  datatype Spec =
    | Col(key: string, row: int, index: Index, conv: ToType)
    | Fixed(key: string, text: string)
    | Group(key: string, parts: seq<Spec>)
    | Tuple(key: string, parts: seq<Spec>)
    | KeptIf(key: string, choices: seq<Choice>)

  datatype Choice = Choice(test: Spec, item: Spec)

  /** One `xt.x(row, index, to_type)`, with None as Null. */
  function Read(lines: seq<string>, row: int, index: Index, conv: ToType): (r: Result<Data, Exc>)
    ensures r.Ok? && conv.AsText? ==> r.value == Null || (r.value.Text? && r.value.s != [])
    ensures X(lines, row, index, AsStr) == Ok(None) ==> r == Ok(Null)
    ensures conv.AsText? && r.Ok? && r.value.Text? ==> X(lines, row, index, AsStr) == Ok(Some(r.value.s))
    ensures conv.AsText? ==> (r.Ok? <==> X(lines, row, index, AsStr).Ok?)
    ensures r.Ok? && conv.AsNumber? ==>
      r.value == Null || (r.value.Num? && X(lines, row, index, AsInt) == Ok(Some(r.value.i)))
    ensures r.Ok? && conv.AsFloat? ==> r.value == Null || (r.value.Real? && DecimalText(r.value.text))
  {
    match conv
    case AsText =>
      (match X(lines, row, index, AsStr)
       case Ok(v) => Ok(if v.Some? then Text(v.value) else Null)
       case Err(e) => Err(e))
    case AsNumber =>
      (match X(lines, row, index, AsInt)
       case Ok(v) => Ok(if v.Some? then Num(v.value) else Null)
       case Err(e) => Err(e))
    case AsFloat =>
      (match X(lines, row, index, AsReal)
       case Ok(v) => Ok(if v.Some? then Real(v.value) else Null)
       case Err(e) => Err(e))
  }

  /** The value of one layout entry; the first failing read, in source order, raises. */
  function Eval(lines: seq<string>, spec: Spec): (r: Result<Data, Exc>)
    ensures r.Ok? && spec.Group? ==> r.value.Dict?
    ensures r.Ok? && spec.Tuple? ==> r.value.Items? && |r.value.items| == |spec.parts|
    ensures r.Ok? && spec.KeptIf? ==> r.value.Items? && |r.value.items| <= |spec.choices|
    decreases spec
  {
    match spec
    case Col(_, row, index, conv) => Read(lines, row, index, conv)
    case Fixed(_, text) => Ok(Text(text))
    case Group(_, parts) =>
      (match EvalAll(lines, parts)
       case Ok(vs) => Ok(Dict(DictOf(Label(parts, vs))))
       case Err(e) => Err(e))
    case Tuple(_, parts) =>
      (match EvalAll(lines, parts)
       case Ok(vs) => Ok(Items(vs))
       case Err(e) => Err(e))
    case KeptIf(_, choices) =>
      (match EvalKept(lines, choices)
       case Ok(vs) => Ok(Items(vs))
       case Err(e) => Err(e))
  }

  /** The values of `parts`, in order. */
  function EvalAll(lines: seq<string>, parts: seq<Spec>): (r: Result<seq<Data>, Exc>)
    ensures r.Ok? ==> |r.value| == |parts|
    decreases parts
  {
    if parts == [] then Ok([])
    else
      match Eval(lines, parts[0])
      case Err(e) => Err(e)
      case Ok(v) =>
        match EvalAll(lines, parts[1..])
        case Err(e) => Err(e)
        case Ok(vs) => Ok([v] + vs)
  }

  /** The comprehension: for each choice, the test first, then the item when the test is truthy. */
  function EvalKept(lines: seq<string>, choices: seq<Choice>): (r: Result<seq<Data>, Exc>)
    ensures r.Ok? ==> |r.value| <= |choices|
    decreases choices
  {
    if choices == [] then Ok([])
    else
      var c := choices[0];
      assert c.test < c && c.item < c;
      match Eval(lines, c.test)
      case Err(e) => Err(e)
      case Ok(t) =>
        var head: Result<seq<Data>, Exc> :=
          if !Truthy(t) then Ok([])
          else (match Eval(lines, c.item) case Ok(v) => Ok([v]) case Err(e) => Err(e));
        match head
        case Err(e) => Err(e)
        case Ok(h) =>
          match EvalKept(lines, choices[1..])
          case Err(e) => Err(e)
          case Ok(vs) => Ok(h + vs)
  }

  /** Each value of a successful `EvalAll` is the value of its own part. */
  lemma {:induction false} EvalAllAt(lines: seq<string>, parts: seq<Spec>)
    requires EvalAll(lines, parts).Ok?
    ensures forall i :: 0 <= i < |parts| ==> Eval(lines, parts[i]) == Ok(EvalAll(lines, parts).value[i])
  {
    if parts != [] {
      var vs := EvalAll(lines, parts).value;
      var h := Eval(lines, parts[0]);
      var rest := EvalAll(lines, parts[1..]);
      assert h.Ok? && rest.Ok? && vs == [h.value] + rest.value;
      EvalAllAt(lines, parts[1..]);
      forall i | 0 <= i < |parts|
        ensures Eval(lines, parts[i]) == Ok(vs[i])
      {
        if i > 0 {
          assert parts[i] == parts[1..][i - 1] && vs[i] == rest.value[i - 1];
        }
      }
    }
  }

  /** Whether the comprehension keeps choice `c`: its test reads a truthy value. */
  predicate Picked(lines: seq<string>, c: Choice) {
    Eval(lines, c.test).Ok? && Truthy(Eval(lines, c.test).value)
  }

  /**
   * The comprehension keeps exactly the items whose test is truthy: every kept
   * value is the item of a picked choice, and every picked choice's item is kept.
   */
  lemma {:induction false} KeptExactly(lines: seq<string>, choices: seq<Choice>)
    requires EvalKept(lines, choices).Ok?
    ensures forall d :: d in EvalKept(lines, choices).value ==>
      exists c :: c in choices && Picked(lines, c) && Eval(lines, c.item) == Ok(d)
    ensures forall c :: c in choices ==> Eval(lines, c.test).Ok?
    ensures forall c :: c in choices && Picked(lines, c) ==>
      Eval(lines, c.item).Ok? && Eval(lines, c.item).value in EvalKept(lines, choices).value
    decreases choices
  {
    if choices != [] {
      KeptExactly(lines, choices[1..]);
      assert forall c :: c in choices ==> c == choices[0] || c in choices[1..];
    }
  }

  /** The choices the comprehension keeps, in their order. */
  function Picks(lines: seq<string>, choices: seq<Choice>): seq<Choice> {
    Seqs.Filter((c: Choice) => Picked(lines, c), choices)
  }

  /**
   * The comprehension's list is the items of the picked choices, one value
   * per picked choice and in the choices' order.
   */
  lemma {:induction false} KeptInOrder(lines: seq<string>, choices: seq<Choice>)
    requires EvalKept(lines, choices).Ok?
    ensures var kept := Picks(lines, choices);
      && |EvalKept(lines, choices).value| == |kept|
      && forall i :: 0 <= i < |kept| ==> Eval(lines, kept[i].item) == Ok(EvalKept(lines, choices).value[i])
    decreases choices
  {
    if choices != [] {
      var c := choices[0];
      var vs := EvalKept(lines, choices).value;
      var rest := EvalKept(lines, choices[1..]);
      var tail := Picks(lines, choices[1..]);
      KeptInOrder(lines, choices[1..]);
      if Picked(lines, c) {
        var v := Eval(lines, c.item).value;
        assert vs == [v] + rest.value;
        assert Picks(lines, choices) == [c] + tail;
        forall i | 0 < i < |vs| ensures Eval(lines, ([c] + tail)[i].item) == Ok(vs[i]) {
          assert ([c] + tail)[i] == tail[i - 1] && vs[i] == rest.value[i - 1];
        }
      } else {
        assert vs == rest.value;
        assert Picks(lines, choices) == tail;
      }
    }
  }

  /** A Tuple entry's value lists its parts' values, one per part, in order. */
  lemma TupleParts(lines: seq<string>, key: string, parts: seq<Spec>)
    requires Eval(lines, Tuple(key, parts)).Ok?
    ensures
      && var v := Eval(lines, Tuple(key, parts)).value;
      && v.Items? && |v.items| == |parts|
      && forall i :: 0 <= i < |parts| ==> Eval(lines, parts[i]) == Ok(v.items[i])
  {
    EvalAllAt(lines, parts);
  }

  /** A KeptIf entry's value is the list of the items of its picked choices, in their order. */
  lemma KeptIfExactly(lines: seq<string>, key: string, choices: seq<Choice>)
    requires Eval(lines, KeptIf(key, choices)).Ok?
    ensures
      && var v := Eval(lines, KeptIf(key, choices)).value;
      && v.Items? && |v.items| <= |choices|
      && (forall d :: d in v.items ==> exists c :: c in choices && Picked(lines, c) && Eval(lines, c.item) == Ok(d))
      && (forall c :: c in choices && Picked(lines, c) ==> Eval(lines, c.item).Ok? && Eval(lines, c.item).value in v.items)
    ensures
      && var v := Eval(lines, KeptIf(key, choices)).value;
      && var kept := Picks(lines, choices);
      && |v.items| == |kept|
      && forall i :: 0 <= i < |kept| ==> Eval(lines, kept[i].item) == Ok(v.items[i])
  {
    KeptExactly(lines, choices);
    KeptInOrder(lines, choices);
  }

  /** When each test is its own item (`[x for x in ... if x]`), every kept value is truthy. */
  lemma KeptAreTruthy(lines: seq<string>, choices: seq<Choice>)
    requires EvalKept(lines, choices).Ok?
    requires forall c :: c in choices ==> c.test == c.item
    ensures forall d :: d in EvalKept(lines, choices).value ==> Truthy(d)
  {
    KeptExactly(lines, choices);
  }

  /** Pair each part's key with its value. */
  function Label(parts: seq<Spec>, vs: seq<Data>): (es: seq<Entry>)
    requires |parts| == |vs|
    ensures |es| == |parts|
    ensures forall i :: 0 <= i < |parts| ==> es[i] == Entry(parts[i].key, vs[i])
  {
    if parts == [] then [] else [Entry(parts[0].key, vs[0])] + Label(parts[1..], vs[1..])
  }

  /** The dict a layout produces. */
  function Record(lines: seq<string>, parts: seq<Spec>): (r: Result<seq<Entry>, Exc>)
    ensures r.Ok? <==> EvalAll(lines, parts).Ok?
    ensures r.Ok? ==> r.value == DictOf(Label(parts, EvalAll(lines, parts).value))
  {
    match EvalAll(lines, parts)
    case Ok(vs) => Ok(DictOf(Label(parts, vs)))
    case Err(e) => Err(e)
  }

  /**
   * What a record holds for a key: the value of the LAST layout entry with that
   * key, whatever earlier entries with the same key read.
   */
  lemma {:induction false} RecordLastWins(lines: seq<string>, parts: seq<Spec>, k: string, i: nat)
    requires Record(lines, parts).Ok?
    requires i < |parts| && parts[i].key == k
    requires forall j :: i < j < |parts| ==> parts[j].key != k
    ensures Lookup(Record(lines, parts).value, k) == Some(EvalAll(lines, parts).value[i])
    ensures Eval(lines, parts[i]) == Ok(EvalAll(lines, parts).value[i])
  {
    var vs := EvalAll(lines, parts).value;
    var es := Label(parts, vs);
    EvalAllAt(lines, parts);
    LastValueWins(es, k);
    LastValueAt(es, k, i);
  }

  lemma EvalAllAppend(lines: seq<string>, a: seq<Spec>, b: seq<Spec>)
    ensures EvalAll(lines, a + b).Ok? <==> EvalAll(lines, a).Ok? && EvalAll(lines, b).Ok?
    ensures EvalAll(lines, a + b).Ok? ==> EvalAll(lines, a + b).value == EvalAll(lines, a).value + EvalAll(lines, b).value
  {
    var c := a + b;
    EvalAllOk(lines, a);
    EvalAllOk(lines, b);
    EvalAllOk(lines, c);
    assert forall i :: 0 <= i < |a| ==> c[i] == a[i];
    assert forall i :: 0 <= i < |b| ==> c[|a| + i] == b[i];
    if EvalAll(lines, a).Ok? && EvalAll(lines, b).Ok? {
      assert forall i :: 0 <= i < |c| ==> Eval(lines, c[i]).Ok? by {
        forall i | 0 <= i < |c| ensures Eval(lines, c[i]).Ok? {
          if i >= |a| {
            assert c[i] == b[i - |a|];
          }
        }
      }
      EvalAllAt(lines, a);
      EvalAllAt(lines, b);
      EvalAllAt(lines, c);
      var vc, va, vb := EvalAll(lines, c).value, EvalAll(lines, a).value, EvalAll(lines, b).value;
      forall i | 0 <= i < |c| ensures vc[i] == (va + vb)[i] {
        if i >= |a| {
          assert c[i] == b[i - |a|];
        }
      }
    }
  }

  /** The values of a layout are read exactly when every part's is. */
  lemma {:induction false} EvalAllOk(lines: seq<string>, parts: seq<Spec>)
    ensures EvalAll(lines, parts).Ok? <==> forall i :: 0 <= i < |parts| ==> Eval(lines, parts[i]).Ok?
  {
    if parts != [] {
      EvalAllCons(lines, parts);
      EvalAllOk(lines, parts[1..]);
      assert forall i :: 1 <= i < |parts| ==> parts[i] == parts[1..][i - 1];
    }
  }

  /** The values of a non-empty list of parts: the first part's, then the rest's. */
  lemma EvalAllCons(lines: seq<string>, parts: seq<Spec>)
    requires parts != []
    ensures EvalAll(lines, parts).Ok? <==> Eval(lines, parts[0]).Ok? && EvalAll(lines, parts[1..]).Ok?
    ensures EvalAll(lines, parts).Ok? ==>
      EvalAll(lines, parts).value == [Eval(lines, parts[0]).value] + EvalAll(lines, parts[1..]).value
  {
  }

  lemma LastValueAppend(x: seq<Entry>, y: seq<Entry>, k: string)
    requires k in KeysOf(y)
    ensures LastValue(x + y, k) == LastValue(y, k)
  {
    var j :| 0 <= j < |y| && KeysOf(y)[j] == k;
    LastValueAppendAt(x, y, k, j);
  }

  /** LastValueAppend, with the position of an entry of `y` under `k` given. */
  lemma {:induction false} LastValueAppendAt(x: seq<Entry>, y: seq<Entry>, k: string, j: nat)
    requires j < |y| && y[j].key == k
    ensures LastValue(x + y, k) == LastValue(y, k)
    decreases |y|
  {
    var z := x + y;
    var n := |y| - 1;
    var y' := y[..n];
    assert z[|z| - 1] == y[n];
    if y[n].key != k {
      assert z[..|z| - 1] == x + y';
      assert y'[j] == y[j];
      LastValueAppendAt(x, y', k, j);
    }
  }

  lemma LabelAppend(a: seq<Spec>, va: seq<Data>, b: seq<Spec>, vb: seq<Data>)
    requires |a| == |va| && |b| == |vb|
    ensures Label(a + b, va + vb) == Label(a, va) + Label(b, vb)
  {
    var l, la, lb := Label(a + b, va + vb), Label(a, va), Label(b, vb);
    forall i | 0 <= i < |a| + |b| ensures l[i] == (la + lb)[i] {
      if i < |a| {
        assert (a + b)[i] == a[i] && (va + vb)[i] == va[i];
      } else {
        assert (a + b)[i] == b[i - |a|] && (va + vb)[i] == vb[i - |a|];
      }
    }
  }

  lemma LookupSuffix(la: seq<Entry>, lb: seq<Entry>, k: string)
    requires k in KeysOf(lb)
    ensures Lookup(DictOf(la + lb), k) == Lookup(DictOf(lb), k)
  {
    LastValueAppend(la, lb, k);
    LastValueWins(la + lb, k);
    LastValueWins(lb, k);
  }

  /** A key the tail of a layout names is read from the tail alone: what comes before cannot change it. */
  lemma RecordSuffix(lines: seq<string>, a: seq<Spec>, b: seq<Spec>, k: string)
    requires Record(lines, a + b).Ok?
    requires exists q :: q in b && q.key == k
    ensures Record(lines, b).Ok?
    ensures Lookup(Record(lines, a + b).value, k) == Lookup(Record(lines, b).value, k)
  {
    EvalAllAppend(lines, a, b);
    var va := EvalAll(lines, a).value;
    var vb := EvalAll(lines, b).value;
    LabelAppend(a, va, b, vb);
    var q :| q in b && q.key == k;
    var i :| 0 <= i < |b| && b[i] == q;
    assert KeysOf(Label(b, vb))[i] == k;
    LookupSuffix(Label(a, va), Label(b, vb), k);
  }

  /** The first entry of a layout, when no later entry repeats its key, is the value of its read. */
  lemma RecordHead(lines: seq<string>, p: Spec, post: seq<Spec>)
    requires Record(lines, [p] + post).Ok?
    requires forall q :: q in post ==> q.key != p.key
    ensures Eval(lines, p).Ok?
    ensures Lookup(Record(lines, [p] + post).value, p.key) == Some(Eval(lines, p).value)
  {
    var parts := [p] + post;
    forall j | 0 < j < |parts| ensures parts[j].key != p.key {
      assert parts[j] == post[j - 1];
    }
    RecordLastWins(lines, parts, p.key, 0);
  }

  /** An entry after `pre`, when no later entry repeats its key, is the value of its read. */
  lemma RecordMiddle(lines: seq<string>, pre: seq<Spec>, p: Spec, post: seq<Spec>)
    requires Record(lines, pre + ([p] + post)).Ok?
    requires forall q :: q in post ==> q.key != p.key
    ensures Eval(lines, p).Ok?
    ensures Lookup(Record(lines, pre + ([p] + post)).value, p.key) == Some(Eval(lines, p).value)
  {
    var b := [p] + post;
    assert b[0] == p;
    RecordSuffix(lines, pre, b, p.key);
    RecordHead(lines, p, post);
  }

  lemma {:induction false} LastValueAt(es: seq<Entry>, k: string, i: nat)
    requires i < |es| && es[i].key == k
    requires forall j :: i < j < |es| ==> es[j].key != k
    ensures LastValue(es, k) == Some(es[i].value)
    decreases |es|
  {
    if i < |es| - 1 {
      LastValueAt(es[..|es| - 1], k, i);
    }
  }
}
