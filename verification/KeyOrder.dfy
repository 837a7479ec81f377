/** sort.Strings on the keys of an object, and the tree as the AMF3 encoder writes it. */
module KeyOrder {
  import opened AmfValues

  /** The order of Go strings: byte by byte, a prefix first. */
  predicate Before(a: Str, b: Str) {
    if b == [] then false
    else if a == [] then true
    else a[0] < b[0] || (a[0] == b[0] && Before(a[1..], b[1..]))
  }

  lemma {:induction false} BeforeIsStrict(a: Str, b: Str)
    ensures !(Before(a, b) && Before(b, a)) && (a != b ==> Before(a, b) || Before(b, a))
    decreases |a|
  {
    if a != [] && b != [] {
      BeforeIsStrict(a[1..], b[1..]);
      assert a == [a[0]] + a[1..] && b == [b[0]] + b[1..];
    }
  }

  lemma {:induction false} BeforeIsTransitive(a: Str, b: Str, c: Str)
    requires Before(a, b) && Before(b, c)
    ensures Before(a, c)
    decreases |a|
  {
    if a != [] && a[0] == b[0] == c[0] {
      BeforeIsTransitive(a[1..], b[1..], c[1..]);
    }
  }

  predicate Increasing(ks: seq<Str>) {
    ks == [] || ((forall k :: k in ks[1..] ==> Before(ks[0], k)) && Increasing(ks[1..]))
  }

  function Insert(k: Str, ks: seq<Str>): (r: seq<Str>)
    ensures |r| == |ks| + 1 && forall x :: x in r <==> x == k || x in ks
  {
    if ks == [] || !Before(ks[0], k) then [k] + ks else [ks[0]] + Insert(k, ks[1..])
  }

  function SortKeys(ks: seq<Str>): (r: seq<Str>)
    ensures |r| == |ks| && forall x :: x in r <==> x in ks
  {
    if ks == [] then [] else
      var r := Insert(ks[0], SortKeys(ks[1..]));
      assert forall x :: x in ks <==> x == ks[0] || x in ks[1..];
      r
  }

  lemma {:induction false} InsertIncreasing(k: Str, ks: seq<Str>)
    requires Increasing(ks) && k !in ks
    ensures Increasing(Insert(k, ks))
  {
    if ks == [] {
    } else if Before(ks[0], k) {
      InsertIncreasing(k, ks[1..]);
    } else {
      BeforeIsStrict(k, ks[0]);
      forall x | x in ks ensures Before(k, x) {
        if x != ks[0] {
          BeforeIsTransitive(k, ks[0], x);
        }
      }
      assert ([k] + ks)[1..] == ks;
    }
  }

  /** Distinct keys come out strictly increasing. */
  lemma {:induction false} SortIncreasing(ks: seq<Str>)
    requires Distinct(ks)
    ensures Increasing(SortKeys(ks))
  {
    if ks != [] {
      assert ks[0] !in ks[1..];
      SortIncreasing(ks[1..]);
      InsertIncreasing(ks[0], SortKeys(ks[1..]));
    }
  }

  lemma {:induction false} IncreasingDistinct(ks: seq<Str>)
    requires Increasing(ks)
    ensures Distinct(ks)
  {
    if ks != [] {
      IncreasingDistinct(ks[1..]);
      forall j | 0 < j < |ks| ensures ks[0] != ks[j] {
        assert ks[j] in ks[1..];
        BeforeIsStrict(ks[0], ks[0]);
      }
    }
  }

  lemma NoElements(b: seq<Str>)
    ensures b == [] || exists k :: k in b
  {
    if b != [] {
      assert b[0] in b;
    }
  }

  /** There is one increasing list of a set of keys. */
  lemma {:induction false} IncreasingUnique(a: seq<Str>, b: seq<Str>)
    requires Increasing(a) && Increasing(b) && forall k :: k in a <==> k in b
    ensures a == b
    decreases |a|
  {
    if a == [] {
      NoElements(b);
    } else {
      assert a[0] in b;
      assert b[0] in a;
      if a[0] != b[0] {
        assert b[0] in a[1..] && a[0] in b[1..];
        BeforeIsStrict(a[0], b[0]);
      }
      IncreasingDistinct(a);
      IncreasingDistinct(b);
      forall k ensures k in a[1..] <==> k in b[1..] {
        if k in a[1..] {
          assert k in b && k != b[0];
        }
        if k in b[1..] {
          assert k in a && k != a[0];
        }
      }
      IncreasingUnique(a[1..], b[1..]);
    }
  }

  // ---------- trees in the order they are written ----------

  /** val.Object[k] */
  function Lookup(es: seq<Entry>, k: Str): (v: Tree)
    requires k in Keys(es)
    ensures exists i :: 0 <= i < |es| && es[i].key == k && v == es[i].val
  {
    if es[0].key == k then es[0].val
    else
      assert k in Keys(es[1..]) by {
        var i :| 0 <= i < |es| && Keys(es)[i] == k;
        assert Keys(es[1..])[i - 1] == k;
      }
      Lookup(es[1..], k)
  }

  function Arrange(es: seq<Entry>): (r: seq<Entry>)
    ensures |r| == |es|
  {
    var ks := SortKeys(Keys(es));
    seq(|ks|, i requires 0 <= i < |ks| => assert ks[i] in ks; Entry(ks[i], Lookup(es, ks[i])))
  }

  /** Every object with its properties sorted. */
  function Canon(o: Tree): Tree
    decreases o
  {
    match o
    case TList(elems) => TList(CanonElems(elems))
    case TObject(es) => TObject(Arrange(CanonValues(es)))
    case TTyped(name, es) => TTyped(name, Arrange(CanonValues(es)))
    case _ => o
  }

  function CanonElems(elems: seq<Tree>): (r: seq<Tree>)
    ensures |r| == |elems| && forall i :: 0 <= i < |r| ==> r[i] == Canon(elems[i])
    decreases elems, |elems|
  {
    if elems == [] then [] else [Canon(elems[0])] + CanonElems(elems[1..])
  }

  function CanonValues(es: seq<Entry>): (r: seq<Entry>)
    ensures |r| == |es| && forall i :: 0 <= i < |r| ==> r[i] == Entry(es[i].key, Canon(es[i].val))
    decreases es, |es|
  {
    if es == [] then [] else [Entry(es[0].key, Canon(es[0].val))] + CanonValues(es[1..])
  }

  lemma KeysOf(es: seq<Entry>)
    ensures Keys(CanonValues(es)) == Keys(es)
    ensures Keys(Arrange(es)) == SortKeys(Keys(es))
    ensures forall k :: k in Keys(es) <==> exists i :: 0 <= i < |es| && es[i].key == k
  {
    hide Canon, SortKeys, Lookup;
    KeyMembers(es);
    CanonKeys(es);
    hide Keys;
    ArrangedKeys(es);
  }

  lemma CanonKeys(es: seq<Entry>)
    ensures Keys(CanonValues(es)) == Keys(es)
  {
    hide Canon;
    assert forall i :: 0 <= i < |es| ==> Keys(CanonValues(es))[i] == Keys(es)[i];
  }

  lemma ArrangedKeys(es: seq<Entry>)
    ensures Keys(Arrange(es)) == SortKeys(Keys(es))
  {
    hide SortKeys, Lookup;
    assert Keys(Arrange(es)) == SortKeys(Keys(es));
  }

  lemma KeyMembers(es: seq<Entry>)
    ensures forall k :: k in Keys(es) <==> exists i :: 0 <= i < |es| && es[i].key == k
  {
    forall k | k in Keys(es) ensures exists i :: 0 <= i < |es| && es[i].key == k {
      var i :| 0 <= i < |es| && Keys(es)[i] == k;
      assert es[i].key == k;
    }
    forall i | 0 <= i < |es| ensures es[i].key in Keys(es) {
      assert Keys(es)[i] == es[i].key;
    }
  }

  lemma {:induction false} LookupAt(es: seq<Entry>, i: nat)
    requires Distinct(Keys(es)) && i < |es|
    ensures es[i].key in Keys(es) && Lookup(es, es[i].key) == es[i].val
    decreases |es|
  {
    KeyAt(es, i);
    KeyAt(es, 0);
    if i > 0 {
      DistinctRest(es);
      LookupAt(es[1..], i - 1);
    }
  }

  lemma KeyAt(es: seq<Entry>, j: nat)
    requires j < |es|
    ensures Keys(es)[j] == es[j].key && es[j].key in Keys(es)
  {
    assert Keys(es)[j] == es[j].key;
  }

  lemma DistinctRest(es: seq<Entry>)
    requires Distinct(Keys(es)) && es != []
    ensures Distinct(Keys(es[1..])) && forall i :: 0 < i < |es| ==> es[i].key != es[0].key
  {
    assert Keys(es[1..]) == Keys(es)[1..];
    forall i | 0 < i < |es| ensures es[i].key != es[0].key {
      assert Keys(es)[0] != Keys(es)[i];
    }
  }

  lemma LookupCanon(es: seq<Entry>, k: Str)
    requires Distinct(Keys(es)) && k in Keys(es)
    ensures k in Keys(CanonValues(es)) && Lookup(CanonValues(es), k) == Canon(Lookup(es, k))
  {
    KeysOf(es);
    var i :| 0 <= i < |es| && es[i].key == k;
    LookupAt(es, i);
    LookupAt(CanonValues(es), i);
  }

  /** The i-th entry that is written. */
  lemma ArrangedAt(es: seq<Entry>, i: nat)
    requires Distinct(Keys(es)) && i < |es|
    ensures var k := SortKeys(Keys(es))[i];
      k in Keys(es) && Arrange(CanonValues(es))[i] == Entry(k, Canon(Lookup(es, k)))
  {
    hide Distinct, Canon, Lookup, SortKeys;
    KeysOf(es);
    var k := SortKeys(Keys(es))[i];
    assert k in SortKeys(Keys(es));
    LookupCanon(es, k);
  }

  // ---------- order does not matter ----------

  lemma {:induction false} PlainValuesAt(es: seq<Entry>, i: nat)
    requires i < |es|
    ensures PlainValues(es)[i] == Plain(es[i].val)
  {
    if i > 0 {
      PlainValuesAt(es[1..], i - 1);
    }
  }

  lemma {:induction false} PlainElemsAt(elems: seq<Tree>)
    ensures |PlainElems(elems)| == |elems| && forall i :: 0 <= i < |elems| ==> PlainElems(elems)[i] == Plain(elems[i])
  {
    if elems != [] {
      PlainElemsAt(elems[1..]);
    }
  }

  /** The map of an object, read back key by key. */
  lemma PlainObject(es: seq<Entry>)
    requires Distinct(Keys(es))
    ensures var m := Fields(Keys(es), PlainValues(es), map[]);
      (forall k :: k in m <==> k in Keys(es)) && forall k :: k in Keys(es) ==> k in m && m[k] == Plain(Lookup(es, k))
  {
    var m := Fields(Keys(es), PlainValues(es), map[]);
    FieldsExactly(Keys(es), PlainValues(es), m);
    forall k | k in Keys(es) ensures k in m && m[k] == Plain(Lookup(es, k)) {
      var i :| 0 <= i < |es| && Keys(es)[i] == k;
      LookupAt(es, i);
      PlainValuesAt(es, i);
    }
  }

  lemma FromMapsAt(es: seq<Entry>, k: Str)
    requires Distinct(Keys(es)) && k in Keys(es) && forall i :: 0 <= i < |es| ==> FromMaps(es[i].val)
    ensures FromMaps(Lookup(es, k))
  {
  }

  /** Two trees of the same value, in whatever order their maps were iterated, are written alike. */
  lemma {:induction false} OrderIndependent(o: Tree, p: Tree)
    requires FromMaps(o) && FromMaps(p) && Plain(o) == Plain(p)
    ensures Canon(o) == Canon(p)
    decreases o
  {
    match o
    case TList(elems) =>
      PlainElemsAt(elems);
      PlainElemsAt(p.elems);
      forall i | 0 <= i < |elems| ensures Canon(elems[i]) == Canon(p.elems[i]) {
        assert PlainElems(elems)[i] == PlainElems(p.elems)[i];
        OrderIndependent(elems[i], p.elems[i]);
      }
      assert CanonElems(elems) == CanonElems(p.elems);
    case TObject(es) =>
      EntriesIndependent(es, p.entries);
    case TTyped(_, es) =>
      EntriesIndependent(es, p.entries);
    case _ =>
  }

  lemma {:induction false} EntriesIndependent(es: seq<Entry>, fs: seq<Entry>)
    requires Distinct(Keys(es)) && Distinct(Keys(fs))
    requires forall i :: 0 <= i < |es| ==> FromMaps(es[i].val)
    requires forall i :: 0 <= i < |fs| ==> FromMaps(fs[i].val)
    requires Fields(Keys(es), PlainValues(es), map[]) == Fields(Keys(fs), PlainValues(fs), map[])
    ensures Arrange(CanonValues(es)) == Arrange(CanonValues(fs))
    decreases es
  {
    hide Plain, PlainValues, Canon, CanonValues, Arrange, SortKeys, FromMaps, Lookup, Fields, Keys, Distinct;
    PlainObject(es);
    PlainObject(fs);
    var a, b := SortKeys(Keys(es)), SortKeys(Keys(fs));
    SortIncreasing(Keys(es));
    SortIncreasing(Keys(fs));
    IncreasingUnique(a, b);
    forall i | 0 <= i < |es| ensures Arrange(CanonValues(es))[i] == Arrange(CanonValues(fs))[i] {
      var k := a[i];
      ArrangedAt(es, i);
      ArrangedAt(fs, i);
      FromMapsAt(es, k);
      FromMapsAt(fs, k);
      OrderIndependent(Lookup(es, k), Lookup(fs, k));
    }
  }
}
