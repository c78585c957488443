/**
 * dido's exporter and importer registries (dido/utils/exporters_registry.py,
 * dido/utils/importers_registry.py). Each is a class-level
 * `defaultdict(dict)`: per collection (backend) name, a dict from an Odoo
 * binding's model name to its friendly name. The two classes hold the same
 * code; one model serves both, as two separate `Registry` values.
 *
 * A Python dict keeps insertion order, which decides how `sorted` orders
 * equal friendly names, so a collection is an insertion-ordered list of
 * (model, friendly name) pairs with distinct models.
 */
module Registry {
  import opened Wrappers
  import opened PyText
  import Seqs

  /** The `_name` and `_description` of a binding class. */
  datatype Binding = Binding(name: string, description: string)

  type Entry = (string, string)
  type Dict = seq<Entry>
  type Registry = map<string, Dict>

  // ------------------------------------------------------------ the insertion-ordered dict

  predicate DistinctKeys(d: Dict) {
    forall i, j :: 0 <= i < j < |d| ==> d[i].0 != d[j].0
  }

  /** `d.get(k)`. */
  function Lookup(d: Dict, k: string): (r: Option<string>)
    ensures r.Some? <==> exists i :: 0 <= i < |d| && d[i].0 == k
  {
    if d == [] then None else if d[0].0 == k then Some(d[0].1) else Lookup(d[1..], k)
  }

  /** `d[k] = v`: a present key keeps its place and takes the new value; a new one goes last. */
  function Put(d: Dict, k: string, v: string): (r: Dict)
    decreases |d|
  {
    if d == [] then [(k, v)]
    else if d[0].0 == k then [(k, v)] + d[1..]
    else [d[0]] + Put(d[1..], k, v)
  }

  /** `d[k] = v` keeps every key in its place and appends the key when it was new. */
  lemma {:induction false} PutShape(d: Dict, k: string, v: string)
    ensures |Put(d, k, v)| == if Lookup(d, k).Some? then |d| else |d| + 1
    ensures forall i :: 0 <= i < |d| ==> Put(d, k, v)[i].0 == d[i].0
    ensures |Put(d, k, v)| == |d| + 1 ==> Put(d, k, v)[|d|] == (k, v)
    decreases |d|
  {
    if d != [] && d[0].0 != k {
      PutShape(d[1..], k, v);
      assert Put(d, k, v) == [d[0]] + Put(d[1..], k, v);
    }
  }

  /** After `d[k] = v` the key maps to v and every other key to what it did. */
  lemma {:induction false} PutLookup(d: Dict, k: string, v: string, k': string)
    ensures Lookup(Put(d, k, v), k') == if k' == k then Some(v) else Lookup(d, k')
    decreases |d|
  {
    if d != [] && d[0].0 != k {
      PutLookup(d[1..], k, v, k');
      assert Put(d, k, v)[1..] == Put(d[1..], k, v);
    } else if d != [] {
      assert Put(d, k, v)[1..] == d[1..];
    }
  }

  /**
   * After `d[k] = v` the key maps to v and every other key to what it did;
   * keys stay distinct, the earlier keys keep their places, and the dict
   * grows by one exactly when the key was new.
   */
  lemma PutSpec(d: Dict, k: string, v: string)
    requires DistinctKeys(d)
    ensures DistinctKeys(Put(d, k, v))
    ensures forall k' :: Lookup(Put(d, k, v), k') == if k' == k then Some(v) else Lookup(d, k')
    ensures |Put(d, k, v)| == if Lookup(d, k).Some? then |d| else |d| + 1
    ensures forall i :: 0 <= i < |d| ==> Put(d, k, v)[i].0 == d[i].0
  {
    PutShape(d, k, v);
    forall k' ensures Lookup(Put(d, k, v), k') == if k' == k then Some(v) else Lookup(d, k') {
      PutLookup(d, k, v, k');
    }
    var r := Put(d, k, v);
    forall i, j | 0 <= i < j < |r| ensures r[i].0 != r[j].0 {
      if j == |d| {
        assert r[j].0 == k && r[i].0 == d[i].0;
        assert Lookup(d, k).None?;
      }
    }
  }

  /** The pairs of a dict with distinct keys are exactly its key-to-value mapping. */
  lemma EntryMeansLookup(d: Dict, e: Entry)
    requires DistinctKeys(d)
    ensures e in d <==> Lookup(d, e.0) == Some(e.1)
  {
    if d != [] && d[0].0 != e.0 {
      assert DistinctKeys(d[1..]) by {
        forall i, j | 0 <= i < j < |d[1..]| ensures d[1..][i].0 != d[1..][j].0 {
          assert d[1..][i] == d[i + 1] && d[1..][j] == d[j + 1];
        }
      }
      EntryMeansLookup(d[1..], e);
    }
  }

  // ------------------------------------------------------------ sorted(..., key=lambda x: x[1])

  /** Strictly before, by friendly name. */
  predicate Before(a: Entry, b: Entry) {
    LexLe(a.1, b.1) && a.1 != b.1
  }

  predicate Sorted(s: seq<Entry>) {
    forall i, j :: 0 <= i < j < |s| ==> LexLe(s[i].1, s[j].1)
  }

  /** Insert after every entry whose name is not greater: the stable insertion. */
  function Insert(x: Entry, s: seq<Entry>): (r: seq<Entry>)
    ensures multiset(r) == multiset(s) + multiset{x}
  {
    if s == [] || Before(x, s[0]) then [x] + s
    else
      assert s == [s[0]] + s[1..];
      [s[0]] + Insert(x, s[1..])
  }

  /** Python's sorted by the second item: a stable insertion sort. */
  function SortByName(s: seq<Entry>): (r: seq<Entry>)
    ensures multiset(r) == multiset(s)
  {
    if s == [] then []
    else
      assert s == s[..|s| - 1] + [s[|s| - 1]];
      Insert(s[|s| - 1], SortByName(s[..|s| - 1]))
  }

  lemma {:induction false} InsertSorted(x: Entry, s: seq<Entry>)
    requires Sorted(s)
    ensures Sorted(Insert(x, s))
  {
    if s == [] {
    } else if Before(x, s[0]) {
      var r := Insert(x, s);
      assert r == [x] + s;
      forall i, j | 0 <= i < j < |r| ensures LexLe(r[i].1, r[j].1) {
        if i == 0 && j > 1 {
          LexTransitive(x.1, s[0].1, s[j - 1].1);
        }
      }
    } else {
      LexTotal(x.1, s[0].1);
      assert LexLe(s[0].1, x.1);
      InsertSorted(x, s[1..]);
      var t := Insert(x, s[1..]);
      forall j | 0 <= j < |t| ensures LexLe(s[0].1, t[j].1) {
        assert t[j] in multiset(t);
        assert t[j] == x || t[j] in multiset(s[1..]);
        if t[j] != x {
          assert t[j] in s[1..];
        }
      }
    }
  }

  /** The entries with a given friendly name. */
  function Named(n: string): Entry -> bool {
    (e: Entry) => e.1 == n
  }

  /**
   * Inserting into a sorted list puts x after every entry of the same name:
   * among those, x comes last.
   */
  lemma {:induction false} InsertStable(x: Entry, s: seq<Entry>, n: string)
    requires Sorted(s)
    ensures Seqs.Filter(Named(n), Insert(x, s)) == Seqs.Filter(Named(n), s) + Seqs.Filter(Named(n), [x])
  {
    if s == [] {
    } else if Before(x, s[0]) {
      if x.1 == n {
        assert Seqs.Filter(Named(n), s) == [] by {
          forall e | e in s ensures e.1 != n {
            var j :| 0 <= j < |s| && s[j] == e;
            if e.1 == n && j > 0 {
              assert LexLe(s[0].1, n);
              LexAntisymmetric(s[0].1, n);
            }
          }
          Seqs.FilterNone(Named(n), s);
        }
      }
      Seqs.FilterAppend(Named(n), [x], s);
      Seqs.FilterAppend(Named(n), s, [x]);
    } else {
      InsertStable(x, s[1..], n);
      Seqs.FilterAppend(Named(n), [s[0]], Insert(x, s[1..]));
      Seqs.FilterAppend(Named(n), [s[0]], s[1..]);
      assert [s[0]] + s[1..] == s;
    }
  }

  /**
   * sorted(items, key=name) is a permutation of the items, ordered by
   * friendly name, and stable: entries with one name keep their order.
   */
  lemma {:induction false} SortByNameSpec(s: seq<Entry>)
    ensures multiset(SortByName(s)) == multiset(s)
    ensures Sorted(SortByName(s))
    ensures forall n :: Seqs.Filter(Named(n), SortByName(s)) == Seqs.Filter(Named(n), s)
  {
    if s != [] {
      var init := s[..|s| - 1];
      var x := s[|s| - 1];
      SortByNameSpec(init);
      InsertSorted(x, SortByName(init));
      forall n ensures Seqs.Filter(Named(n), SortByName(s)) == Seqs.Filter(Named(n), s) {
        InsertStable(x, SortByName(init), n);
        Seqs.FilterAppend(Named(n), init, [x]);
        assert init + [x] == s;
      }
    }
  }

  // ------------------------------------------------------------ the registry

  /** The collection as the class-level defaultdict sees it: an unknown name reads as an empty dict. */
  function Collection(reg: Registry, c: string): Dict {
    if c in reg then reg[c] else []
  }

  /** Every collection has distinct model names. */
  predicate Valid(reg: Registry) {
    forall c :: c in reg ==> DistinctKeys(reg[c])
  }

  /** register_exporter / register_importer: map the model to its friendly name within the collection. */
  function Register(reg: Registry, c: string, b: Binding): (r: Registry) {
    reg[c := Put(Collection(reg, c), b.name, b.description)]
  }

  /**
   * exporters / importers: the collection's (model, friendly name) pairs
   * sorted by friendly name. Reading the defaultdict creates an empty
   * collection under an unknown name, so the registry is returned too.
   */
  function Selection(reg: Registry, c: string): (r: (Registry, seq<Entry>)) {
    (reg[c := Collection(reg, c)], SortByName(Collection(reg, c)))
  }

  /** is_registered: looked up with `.get(name, {})`, which creates nothing. */
  predicate IsRegistered(reg: Registry, c: string, b: Binding) {
    Lookup(Collection(reg, c), b.name).Some?
  }

  /**
   * Registering keeps the registry valid; in its collection the model now
   * maps to the binding's friendly name (overwriting an earlier one) and
   * every other model is untouched; other collections do not change.
   */
  lemma RegisterSpec(reg: Registry, c: string, b: Binding)
    requires Valid(reg)
    ensures Valid(Register(reg, c, b))
    ensures forall m :: Lookup(Collection(Register(reg, c, b), c), m)
                        == if m == b.name then Some(b.description) else Lookup(Collection(reg, c), m)
    ensures forall c' :: c' != c ==> Collection(Register(reg, c, b), c') == Collection(reg, c')
    ensures IsRegistered(Register(reg, c, b), c, b)
  {
    PutSpec(Collection(reg, c), b.name, b.description);
  }

  /** Registering a model twice keeps one entry, in its first place, with the later name. */
  lemma ReRegisterOverwrites(reg: Registry, c: string, b: Binding, name2: string)
    requires Valid(reg)
    ensures var twice := Register(Register(reg, c, b), c, Binding(b.name, name2));
      |Collection(twice, c)| == |Collection(Register(reg, c, b), c)|
      && Lookup(Collection(twice, c), b.name) == Some(name2)
  {
    RegisterSpec(reg, c, b);
    PutSpec(Collection(Register(reg, c, b), c), b.name, name2);
  }

  /**
   * is_registered holds exactly when the model has an entry in that
   * collection; it holds for no model of an unknown collection.
   */
  lemma IsRegisteredSpec(reg: Registry, c: string, b: Binding)
    ensures IsRegistered(reg, c, b) <==> c in reg && exists i :: 0 <= i < |reg[c]| && reg[c][i].0 == b.name
  {
  }

  /**
   * The selection lists exactly the collection's entries, each model with
   * its current friendly name, sorted by that name, ties in registration
   * order. An unknown collection gives [].
   */
  lemma SelectionSpec(reg: Registry, c: string)
    requires Valid(reg)
    ensures var sel := Selection(reg, c).1;
      Sorted(sel)
      && (forall e :: e in sel <==> Lookup(Collection(reg, c), e.0) == Some(e.1))
      && |sel| == |Collection(reg, c)|
      && (forall n :: Seqs.Filter(Named(n), sel) == Seqs.Filter(Named(n), Collection(reg, c)))
    ensures c !in reg ==> Selection(reg, c).1 == []
  {
    var d := Collection(reg, c);
    SortByNameSpec(d);
    forall e ensures e in SortByName(d) <==> Lookup(d, e.0) == Some(e.1) {
      EntryMeansLookup(d, e);
      assert e in SortByName(d) <==> e in multiset(SortByName(d));
    }
    assert |SortByName(d)| == |multiset(SortByName(d))|;
  }

  /**
   * Listing a collection adds at most an empty collection: afterwards every
   * lookup, registration check and listing answers as before.
   */
  lemma SelectionChangesNothing(reg: Registry, c: string, c': string, b: Binding)
    ensures Valid(reg) ==> Valid(Selection(reg, c).0)
    ensures Collection(Selection(reg, c).0, c') == Collection(reg, c')
    ensures IsRegistered(Selection(reg, c).0, c', b) == IsRegistered(reg, c', b)
    ensures Selection(Selection(reg, c).0, c').1 == Selection(reg, c').1
  {
  }

  /** Registering in one collection changes no other collection's listing. */
  lemma CollectionsIndependent(reg: Registry, c: string, c': string, b: Binding)
    requires c != c'
    ensures Selection(Register(reg, c, b), c').1 == Selection(reg, c').1
    ensures IsRegistered(Register(reg, c, b), c', b) == IsRegistered(reg, c', b)
  {
  }
}
