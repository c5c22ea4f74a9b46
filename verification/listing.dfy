/** What a Firestore query `where(...) ... orderBy('name')` returns, as a
    client sees it: the documents of a collection that satisfy the filter,
    ordered by the `name` field and, among equal names, by document id
    (Firestore's implicit last ordering). Strings compare code point by code
    point, which is the order of their UTF-8 encodings. */
module Listing {

  /** Strict lexicographic order on strings. */
  predicate StrLess(a: string, b: string)
    decreases |a|
  {
    |b| > 0 && (|a| == 0 || a[0] < b[0] || (a[0] == b[0] && StrLess(a[1..], b[1..])))
  }

  lemma {:induction false} StrLessIrreflexive(a: string)
    ensures !StrLess(a, a)
    decreases |a|
  {
    if |a| > 0 {
      StrLessIrreflexive(a[1..]);
    }
  }

  lemma {:induction false} StrLessTransitive(a: string, b: string, c: string)
    requires StrLess(a, b) && StrLess(b, c)
    ensures StrLess(a, c)
    decreases |a|
  {
    if |a| > 0 && a[0] == b[0] && b[0] == c[0] {
      StrLessTransitive(a[1..], b[1..], c[1..]);
    }
  }

  lemma {:induction false} StrLessTotal(a: string, b: string)
    ensures a == b || StrLess(a, b) || StrLess(b, a)
    decreases |a|
  {
    if |a| > 0 && |b| > 0 && a[0] == b[0] {
      StrLessTotal(a[1..], b[1..]);
      if a[1..] == b[1..] {
        assert a == [a[0]] + a[1..] && b == [b[0]] + b[1..];
      }
    }
  }

  /** One result row: document id, its `name` field, and the document. */
  datatype Entry<R> = Entry(id: string, name: string, data: R)

  /** The query's order: by name, then by document id. */
  predicate Less<R>(x: Entry<R>, y: Entry<R>) {
    StrLess(x.name, y.name) || (x.name == y.name && StrLess(x.id, y.id))
  }

  lemma LessIrreflexive<R>(x: Entry<R>)
    ensures !Less(x, x)
  {
    StrLessIrreflexive(x.name);
    StrLessIrreflexive(x.id);
  }

  lemma LessTransitive<R>(x: Entry<R>, y: Entry<R>, z: Entry<R>)
    requires Less(x, y) && Less(y, z)
    ensures Less(x, z)
  {
    if StrLess(x.name, y.name) && StrLess(y.name, z.name) {
      StrLessTransitive(x.name, y.name, z.name);
    } else if x.name == y.name && y.name == z.name {
      StrLessTransitive(x.id, y.id, z.id);
    }
  }

  lemma LessTotal<R>(x: Entry<R>, y: Entry<R>)
    ensures (x.name == y.name && x.id == y.id) || Less(x, y) || Less(y, x)
  {
    StrLessTotal(x.name, y.name);
    StrLessTotal(x.id, y.id);
  }

  lemma LessAsymmetric<R>(x: Entry<R>, y: Entry<R>)
    requires Less(x, y)
    ensures !Less(y, x)
  {
    if Less(y, x) {
      LessTransitive(x, y, x);
      LessIrreflexive(x);
    }
  }

  /** Strictly increasing in the query's order (so no id occurs twice). */
  ghost predicate Sorted<R>(s: seq<Entry<R>>) {
    forall i, j :: 0 <= i < j < |s| ==> Less(s[i], s[j])
  }

  /** Insert `x` at its place in a sorted list whose entries all differ from it in id. */
  function Insert<R>(x: Entry<R>, s: seq<Entry<R>>): (r: seq<Entry<R>>)
    requires Sorted(s)
    requires forall k :: 0 <= k < |s| ==> s[k].id != x.id
    ensures Sorted(r)
    ensures |r| == |s| + 1
    ensures x in r
    ensures forall k :: 0 <= k < |s| ==> s[k] in r
    ensures forall k :: 0 <= k < |r| ==> r[k] == x || r[k] in s
    decreases |s|
  {
    if |s| == 0 then [x]
    else
      LessTotal(x, s[0]);
      if Less(x, s[0]) then
        InsertFront(x, s);
        [x] + s
      else
        var t := Insert(x, s[1..]);
        InsertAfterHead(s[0], t);
        [s[0]] + t
  }

  lemma InsertFront<R>(x: Entry<R>, s: seq<Entry<R>>)
    requires Sorted(s) && |s| > 0 && Less(x, s[0])
    ensures Sorted([x] + s)
  {
    forall j | 0 <= j < |s| ensures Less(x, s[j]) {
      if j > 0 {
        LessTransitive(x, s[0], s[j]);
      }
    }
    assert forall k :: 1 <= k <= |s| ==> ([x] + s)[k] == s[k - 1];
  }

  lemma InsertAfterHead<R>(h: Entry<R>, t: seq<Entry<R>>)
    requires Sorted(t)
    requires forall k :: 0 <= k < |t| ==> Less(h, t[k])
    ensures Sorted([h] + t)
  {
  }

  /** The rows a query over `m` with filter `keep` must return, in any order. */
  ghost predicate Lists<R>(r: seq<Entry<R>>, m: map<string, R>, keep: R -> bool, name: R -> string) {
    && (forall k :: 0 <= k < |r| ==>
          r[k].id in m && keep(m[r[k].id]) && r[k].data == m[r[k].id] && r[k].name == name(m[r[k].id]))
    && (forall id :: id in m && keep(m[id]) ==> exists k :: 0 <= k < |r| && r[k].id == id)
  }

  /** `getDocs(query(collection, where..., orderBy('name')))`: every document
      of `m` that passes `keep`, once each, in the query's order. */
  method Query<R>(m: map<string, R>, keep: R -> bool, name: R -> string) returns (r: seq<Entry<R>>)
    ensures Sorted(r)
    ensures Lists(r, m, keep, name)
  {
    r := [];
    var todo := m.Keys;
    while todo != {}
      invariant todo <= m.Keys
      invariant Sorted(r)
      invariant forall k :: 0 <= k < |r| ==>
        && r[k].id in m && r[k].id !in todo && keep(m[r[k].id])
        && r[k].data == m[r[k].id] && r[k].name == name(m[r[k].id])
      invariant forall id :: id in m && id !in todo && keep(m[id]) ==> exists k :: 0 <= k < |r| && r[k].id == id
      decreases |todo|
    {
      var id :| id in todo;
      todo := todo - {id};
      if keep(m[id]) {
        var e := Entry(id, name(m[id]), m[id]);
        var old_r := r;
        r := Insert(e, r);
        forall k | 0 <= k < |r|
          ensures r[k].id in m && r[k].id !in todo && keep(m[r[k].id])
          ensures r[k].data == m[r[k].id] && r[k].name == name(m[r[k].id])
        {
          assert r[k] in r;
        }
        forall i | i in m && i !in todo && keep(m[i]) ensures exists k :: 0 <= k < |r| && r[k].id == i {
          if i == id {
            assert e in r;
          } else {
            var k :| 0 <= k < |old_r| && old_r[k].id == i;
            assert old_r[k] in r;
          }
        }
      }
    }
  }

  /** A sorted list of a query's rows is unique: two of them are equal. So
      the order the documents are visited in does not show in the result. */
  lemma {:induction false} ListingUnique<R>(a: seq<Entry<R>>, b: seq<Entry<R>>, m: map<string, R>, keep: R -> bool, name: R -> string)
    requires Sorted(a) && Lists(a, m, keep, name)
    requires Sorted(b) && Lists(b, m, keep, name)
    ensures a == b
  {
    SameElements(a, b, m, keep, name);
    SortedSameElements(a, b);
  }

  lemma SameElements<R>(a: seq<Entry<R>>, b: seq<Entry<R>>, m: map<string, R>, keep: R -> bool, name: R -> string)
    requires Lists(a, m, keep, name) && Lists(b, m, keep, name)
    ensures forall e :: e in a <==> e in b
  {
    forall e | e in a ensures e in b {
      var i :| 0 <= i < |a| && a[i] == e;
      var k :| 0 <= k < |b| && b[k].id == e.id;
      assert b[k] == e;
    }
    forall e | e in b ensures e in a {
      var i :| 0 <= i < |b| && b[i] == e;
      var k :| 0 <= k < |a| && a[k].id == e.id;
      assert a[k] == e;
    }
  }

  lemma {:induction false} SortedSameElements<R>(a: seq<Entry<R>>, b: seq<Entry<R>>)
    requires Sorted(a) && Sorted(b)
    requires forall e :: e in a <==> e in b
    ensures a == b
    decreases |a|
  {
    if |b| > 0 {
      assert b[0] in b;
    }
    if |a| > 0 {
      assert a[0] in b;
      assert |b| > 0;
      var x, y := a[0], b[0];
      var i :| 0 <= i < |b| && b[i] == x;
      assert y in b;
      var j :| 0 <= j < |a| && a[j] == y;
      if i > 0 && j > 0 {
        assert Less(y, x) && Less(x, y);
        LessAsymmetric(x, y);
      } else if i > 0 {
        assert y == x;
      }
      assert x == y;
      forall e | e in a[1..] ensures e in b[1..] {
        var k :| 1 <= k < |a| && a[k] == e;
        assert e in a;
        var l :| 0 <= l < |b| && b[l] == e;
        if l == 0 {
          LessIrreflexive(x);
        }
      }
      forall e | e in b[1..] ensures e in a[1..] {
        var k :| 1 <= k < |b| && b[k] == e;
        assert e in b;
        var l :| 0 <= l < |a| && a[l] == e;
        if l == 0 {
          LessIrreflexive(x);
        }
      }
      SortedSameElements(a[1..], b[1..]);
      assert a == [x] + a[1..] && b == [y] + b[1..];
    }
  }

  /** Both directions of membership: an id is listed exactly when its document passes the filter. */
  lemma ListedIff<R>(r: seq<Entry<R>>, m: map<string, R>, keep: R -> bool, name: R -> string, id: string)
    requires Lists(r, m, keep, name)
    ensures (exists k :: 0 <= k < |r| && r[k].id == id) <==> id in m && keep(m[id])
  {
  }

  /** `list.filter(x => x.id !== id)`. */
  function RemoveId<R>(s: seq<Entry<R>>, id: string): (r: seq<Entry<R>>)
    ensures forall k :: 0 <= k < |r| ==> r[k].id != id && r[k] in s
    ensures forall k :: 0 <= k < |s| && s[k].id != id ==> s[k] in r
    decreases |s|
  {
    if |s| == 0 then []
    else if s[0].id == id then RemoveId(s[1..], id)
    else [s[0]] + RemoveId(s[1..], id)
  }

  /** Filtering keeps the order: a sorted listing stays sorted. */
  lemma {:induction false} RemoveIdSorted<R>(s: seq<Entry<R>>, id: string)
    requires Sorted(s)
    ensures Sorted(RemoveId(s, id))
    decreases |s|
  {
    if |s| > 0 {
      RemoveIdSorted(s[1..], id);
      var t := RemoveId(s[1..], id);
      if s[0].id != id {
        forall k | 0 <= k < |t| ensures Less(s[0], t[k]) {
          var j :| 0 <= j < |s[1..]| && s[1..][j] == t[k];
          assert s[j + 1] == t[k];
        }
        InsertAfterHead(s[0], t);
      }
    }
  }

  /** Removing an id that is not listed changes nothing. */
  lemma {:induction false} RemoveAbsentId<R>(s: seq<Entry<R>>, id: string)
    requires forall k :: 0 <= k < |s| ==> s[k].id != id
    ensures RemoveId(s, id) == s
    decreases |s|
  {
    if |s| > 0 {
      RemoveAbsentId(s[1..], id);
      assert s == [s[0]] + s[1..];
    }
  }
}
