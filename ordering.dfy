/// The two orders the chart script sorts by: series entries by year
/// (`(a, b) => a.Year - b.Year`) and Make labels by the default
/// `Array.prototype.sort` order on strings.
module Ordering {
  import opened Records

  /** Strict order on year keys. Numbers compare numerically; the NaN key is
      placed after every number, which is where this model puts it. */
  predicate KeyLt(a: Option<int>, b: Option<int>)
  {
    match (a, b)
    case (Some(x), Some(y)) => x < y
    case (Some(_), None) => true
    case (None, _) => false
  }

  /** A series is strictly ascending by year key: no year twice, numbers in
      increasing order, the NaN entry (if any) last. */
  predicate Ascending(s: seq<Entry>)
  {
    forall i, j :: 0 <= i < j < |s| ==> KeyLt(s[i].year, s[j].year)
  }

  lemma {:induction false} MinKeyExists(keys: set<Option<int>>)
    requires keys != {}
    ensures exists k :: IsMinKey(k, keys)
  {
    var x :| x in keys;
    if keys == {x} {
      assert IsMinKey(x, keys);
    } else {
      MinKeyExists(keys - {x});
      var k :| IsMinKey(k, keys - {x});
      if KeyLt(k, x) {
        assert IsMinKey(k, keys);
      } else {
        assert KeyLt(x, k);
        forall j | j in keys && j != x
          ensures KeyLt(x, j)
        {
          if j != k {
            assert KeyLt(k, j);
          }
        }
        assert IsMinKey(x, keys);
      }
    }
  }

  predicate IsMinKey(k: Option<int>, keys: set<Option<int>>)
  {
    k in keys && forall j :: j in keys && j != k ==> KeyLt(k, j)
  }

  /** The least key of a non-empty set of year keys. */
  function MinKey(keys: set<Option<int>>): (k: Option<int>)
    requires keys != {}
    ensures IsMinKey(k, keys)
  {
    MinKeyExists(keys);
    var k :| IsMinKey(k, keys);
    k
  }

  /** The entries of a dictionary from year key to total, listed in ascending
      year order: `Object.entries(d).map(...).sort((a, b) => a.Year - b.Year)`. */
  function SortedEntries(d: map<Option<int>, Option<int>>): (r: seq<Entry>)
    ensures |r| == |d.Keys|
    ensures forall e :: e in r <==> e.year in d && d[e.year] == e.total
    ensures Ascending(r)
    decreases d.Keys
  {
    if d.Keys == {} then []
    else
      var k := MinKey(d.Keys);
      var rest := d - {k};
      assert rest.Keys == d.Keys - {k};
      var tail := SortedEntries(rest);
      assert forall i :: 0 <= i < |tail| ==> tail[i] in tail && KeyLt(k, tail[i].year);
      [Entry(k, d[k])] + tail
  }

  /** Default JavaScript string order: the first differing character decides,
      and a proper prefix comes first. */
  predicate LexLess(a: string, b: string)
  {
    if b == [] then false
    else if a == [] then true
    else if a[0] != b[0] then a[0] < b[0]
    else LexLess(a[1..], b[1..])
  }

  lemma {:induction false} LexAsymmetric(a: string, b: string)
    ensures LexLess(a, b) ==> !LexLess(b, a)
  {
    if a != [] && b != [] && a[0] == b[0] {
      LexAsymmetric(a[1..], b[1..]);
    }
  }

  lemma {:induction false} LexTransitive(a: string, b: string, c: string)
    requires LexLess(a, b) && LexLess(b, c)
    ensures LexLess(a, c)
  {
    if a != [] && a[0] == b[0] && b[0] == c[0] {
      LexTransitive(a[1..], b[1..], c[1..]);
    }
  }

  lemma {:induction false} LexTotal(a: string, b: string)
    requires a != b
    ensures LexLess(a, b) || LexLess(b, a)
  {
    if a != [] && b != [] && a[0] == b[0] {
      assert a == [a[0]] + a[1..] && b == [b[0]] + b[1..];
      LexTotal(a[1..], b[1..]);
    }
  }

  /** No string is below itself. */
  lemma LexIrreflexive()
    ensures forall a :: !LexLess(a, a)
  {
    forall a: string
      ensures !LexLess(a, a)
    {
      LexAsymmetric(a, a);
    }
  }

  predicate IsMinLabel(s: string, labels: set<string>)
  {
    s in labels && forall t :: t in labels && t != s ==> LexLess(s, t)
  }

  lemma {:induction false} MinLabelExists(labels: set<string>)
    requires labels != {}
    ensures exists s :: IsMinLabel(s, labels)
  {
    var x :| x in labels;
    if labels == {x} {
      assert IsMinLabel(x, labels);
    } else {
      MinLabelExists(labels - {x});
      var s :| IsMinLabel(s, labels - {x});
      LexTotal(s, x);
      if LexLess(s, x) {
        assert IsMinLabel(s, labels);
      } else {
        forall t | t in labels && t != x
          ensures LexLess(x, t)
        {
          if t != s {
            LexTransitive(x, s, t);
          }
        }
        assert IsMinLabel(x, labels);
      }
    }
  }

  /** The least label of a non-empty set of labels. */
  function MinLabel(labels: set<string>): (s: string)
    requires labels != {}
    ensures IsMinLabel(s, labels)
  {
    MinLabelExists(labels);
    var s :| IsMinLabel(s, labels);
    assert forall t :: IsMinLabel(t, labels) ==> t == s by {
      forall t | IsMinLabel(t, labels)
        ensures t == s
      {
        if t != s {
          LexAsymmetric(s, t);
        }
      }
    }
    s
  }

  /** The labels of a set in ascending string order: `Array.from(set).sort()`. */
  function SortedLabels(labels: set<string>): (r: seq<string>)
    ensures |r| == |labels|
    ensures forall s :: s in r <==> s in labels
    ensures forall i, j :: 0 <= i < j < |r| ==> LexLess(r[i], r[j])
    decreases labels
  {
    if labels == {} then []
    else
      var s := MinLabel(labels);
      var tail := SortedLabels(labels - {s});
      assert forall i :: 0 <= i < |tail| ==> tail[i] in tail && LexLess(s, tail[i]);
      [s] + tail
  }
}
