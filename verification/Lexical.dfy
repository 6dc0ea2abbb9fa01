/** Lexicographic order on texts of code units, and sorting entries by key. */
module Lexical {

  /** A UTF-16 code unit. */
  type Unit = u: int | 0 <= u < 0x1_0000

  type Text = seq<Unit>

  /** JavaScript's string comparison: unit by unit, a proper prefix first. */
  predicate Less(a: Text, b: Text) {
    b != [] && (a == [] || a[0] < b[0] || (a[0] == b[0] && Less(a[1..], b[1..])))
  }

  lemma {:induction false} LessIrreflexive(a: Text)
    ensures !Less(a, a)
  {
    if a != [] {
      LessIrreflexive(a[1..]);
    }
  }

  lemma {:induction false} LessTransitive(a: Text, b: Text, c: Text)
    requires Less(a, b) && Less(b, c)
    ensures Less(a, c)
  {
    if a != [] && a[0] == b[0] == c[0] {
      LessTransitive(a[1..], b[1..], c[1..]);
    }
  }

  lemma {:induction false} LessTotal(a: Text, b: Text)
    ensures Less(a, b) || a == b || Less(b, a)
  {
    if a != [] && b != [] && a[0] == b[0] {
      LessTotal(a[1..], b[1..]);
      assert a == [a[0]] + a[1..] && b == [b[0]] + b[1..];
    }
  }

  /******* Entries *******/

  datatype Entry<+V> = Entry(key: Text, value: V)

  predicate DistinctKeys<V>(es: seq<Entry<V>>) {
    forall i, j :: 0 <= i < j < |es| ==> es[i].key != es[j].key
  }

  /** Strictly ascending keys. */
  predicate Ascending<V>(es: seq<Entry<V>>) {
    forall i, j :: 0 <= i < j < |es| ==> Less(es[i].key, es[j].key)
  }

  function Insert<V>(e: Entry<V>, es: seq<Entry<V>>): (r: seq<Entry<V>>)
    ensures |r| == |es| + 1
  {
    if es == [] || Less(e.key, es[0].key) then [e] + es else [es[0]] + Insert(e, es[1..])
  }

  function Sort<V>(es: seq<Entry<V>>): (r: seq<Entry<V>>)
    ensures |r| == |es|
  {
    if es == [] then [] else Insert(es[0], Sort(es[1..]))
  }

  ghost predicate SameElements<V(!new)>(a: seq<Entry<V>>, b: seq<Entry<V>>) {
    forall e :: e in a <==> e in b
  }

  lemma {:induction false} InsertElements<V(!new)>(e: Entry<V>, es: seq<Entry<V>>)
    ensures SameElements(Insert(e, es), [e] + es)
  {
    if es != [] && !Less(e.key, es[0].key) {
      InsertElements(e, es[1..]);
      assert forall x :: x in es <==> x == es[0] || x in es[1..];
    }
  }

  lemma {:induction false} InsertAscending<V(!new)>(e: Entry<V>, es: seq<Entry<V>>)
    requires Ascending(es) && forall x :: x in es ==> x.key != e.key
    ensures Ascending(Insert(e, es))
  {
    if es == [] {
    } else if Less(e.key, es[0].key) {
      forall i | 0 <= i < |es| ensures Less(e.key, es[i].key) {
        if i > 0 {
          LessTransitive(e.key, es[0].key, es[i].key);
        }
      }
    } else {
      assert es[0] in es;
      LessTotal(e.key, es[0].key);
      InsertAscending(e, es[1..]);
      InsertElements(e, es[1..]);
      var rest := Insert(e, es[1..]);
      forall i | 0 <= i < |rest| ensures Less(es[0].key, rest[i].key) {
        assert rest[i] in [e] + es[1..];
        if rest[i] != e {
          var k :| 0 <= k < |es[1..]| && es[1..][k] == rest[i];
          assert es[k + 1] == rest[i];
        }
      }
    }
  }

  lemma {:induction false} SortElements<V(!new)>(es: seq<Entry<V>>)
    ensures SameElements(Sort(es), es)
  {
    if es != [] {
      SortElements(es[1..]);
      InsertElements(es[0], Sort(es[1..]));
      assert forall x :: x in es <==> x == es[0] || x in es[1..];
    }
  }

  /** Sorting distinct keys yields the same entries in strictly ascending order. */
  lemma {:induction false} SortSorts<V(!new)>(es: seq<Entry<V>>)
    requires DistinctKeys(es)
    ensures Ascending(Sort(es)) && SameElements(Sort(es), es)
  {
    if es != [] {
      SortSorts(es[1..]);
      SortElements(es);
      var rest := Sort(es[1..]);
      forall x | x in rest ensures x.key != es[0].key {
        assert x in es[1..];
        var k :| 0 <= k < |es[1..]| && es[1..][k] == x;
        assert es[k + 1] == x;
      }
      InsertAscending(es[0], rest);
    }
  }

  lemma AscendingIsDistinct<V>(es: seq<Entry<V>>)
    requires Ascending(es)
    ensures DistinctKeys(es)
  {
    forall i, j | 0 <= i < j < |es| ensures es[i].key != es[j].key {
      LessIrreflexive(es[i].key);
    }
  }

  /** An ascending sequence is determined by its elements. */
  lemma {:induction false} AscendingUnique<V(!new)>(a: seq<Entry<V>>, b: seq<Entry<V>>)
    requires Ascending(a) && Ascending(b) && SameElements(a, b)
    ensures a == b
  {
    assert |a| > 0 ==> a[0] in a;
    assert |b| > 0 ==> b[0] in b;
    if a != [] {
      HeadsAgree(a, b);
      TailElements(a);
      TailElements(b);
      AscendingUnique(a[1..], b[1..]);
      assert a == [a[0]] + a[1..] && b == [b[0]] + b[1..];
    }
  }

  lemma HeadsAgree<V(!new)>(a: seq<Entry<V>>, b: seq<Entry<V>>)
    requires Ascending(a) && Ascending(b) && a != [] && b != [] && a[0] in b && b[0] in a
    ensures a[0] == b[0]
  {
    var i :| 0 <= i < |b| && b[i] == a[0];
    var j :| 0 <= j < |a| && a[j] == b[0];
    if i > 0 && j > 0 {
      LessTransitive(a[0].key, b[0].key, a[0].key);
      LessIrreflexive(a[0].key);
    }
  }

  lemma TailElements<V(!new)>(es: seq<Entry<V>>)
    requires Ascending(es) && es != []
    ensures forall x :: x in es[1..] <==> x in es && x != es[0]
  {
    LessIrreflexive(es[0].key);
    forall x | x in es[1..] ensures x in es && x != es[0] {
      var k :| 0 <= k < |es[1..]| && es[1..][k] == x;
      assert es[k + 1] == x && Less(es[0].key, es[k + 1].key);
    }
  }

  /** Sorting looks only at keys, so it commutes with replacing values. */
  lemma {:induction false} SortByKeyOnly<V(!new), W(!new)>(es: seq<Entry<V>>, ws: seq<Entry<W>>, f: V -> W)
    requires |ws| == |es| && forall i :: 0 <= i < |es| ==> ws[i] == Entry(es[i].key, f(es[i].value))
    ensures |Sort(ws)| == |Sort(es)| &&
            forall i :: 0 <= i < |es| ==> Sort(ws)[i] == Entry(Sort(es)[i].key, f(Sort(es)[i].value))
  {
    if es != [] {
      SortByKeyOnly(es[1..], ws[1..], f);
      InsertByKeyOnly(es[0], Sort(es[1..]), ws[0], Sort(ws[1..]), f);
    }
  }

  lemma {:induction false} InsertByKeyOnly<V(!new), W(!new)>(e: Entry<V>, es: seq<Entry<V>>, w: Entry<W>, ws: seq<Entry<W>>,
                                                 f: V -> W)
    requires w == Entry(e.key, f(e.value))
    requires |ws| == |es| && forall i :: 0 <= i < |es| ==> ws[i] == Entry(es[i].key, f(es[i].value))
    ensures |Insert(w, ws)| == |Insert(e, es)| &&
            forall i :: 0 <= i <= |es| ==> Insert(w, ws)[i] == Entry(Insert(e, es)[i].key, f(Insert(e, es)[i].value))
  {
    if es != [] && !Less(e.key, es[0].key) {
      InsertByKeyOnly(e, es[1..], w, ws[1..], f);
    }
  }
}
