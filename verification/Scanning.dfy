/** Left-to-right scans that carry a state, emit results, and stop at a marker. */
module Scanning {
  import opened Bytes

  datatype Machine<!S, !P, F> = Machine(stop: S -> bool, emit: (S, P) -> seq<F>, next: (S, P) -> P)

  /** Everything emitted up to the first stop marker. */
  function Scan<S, P, F>(m: Machine<S, P, F>, items: seq<S>, p: P): seq<F> {
    if items == [] || m.stop(items[0]) then []
    else m.emit(items[0], p) + Scan(m, items[1..], m.next(items[0], p))
  }

  /** The state after all items. */
  function After<S, P, F>(m: Machine<S, P, F>, items: seq<S>, p: P): P {
    if items == [] then p else m.next(items[|items| - 1], After(m, items[..|items| - 1], p))
  }

  /** None of the first `n` items is the stop marker. */
  predicate NoStop<S, P, F>(m: Machine<S, P, F>, items: seq<S>, n: nat)
    requires n <= |items|
  {
    forall j :: 0 <= j < n ==> !m.stop(items[j])
  }

  lemma {:induction false} AfterHead<S, P, F>(m: Machine<S, P, F>, items: seq<S>, p: P)
    requires items != []
    ensures After(m, items, p) == After(m, items[1..], m.next(items[0], p))
  {
    if |items| > 1 {
      var init := items[..|items| - 1];
      AfterHead(m, init, p);
      assert items[1..][..|items| - 2] == init[1..];
    }
  }

  lemma AfterLast<S, P, F>(m: Machine<S, P, F>, items: seq<S>, n: nat, p: P)
    requires 1 <= n <= |items|
    ensures After(m, items[..n], p) == m.next(items[n - 1], After(m, items[..n - 1], p))
  {
    assert items[..n][..n - 1] == items[..n - 1];
  }

  lemma ScanCons<S, P, F>(m: Machine<S, P, F>, s: S, rest: seq<S>, p: P)
    requires !m.stop(s)
    ensures Scan(m, [s] + rest, p) == m.emit(s, p) + Scan(m, rest, m.next(s, p))
  {
    assert ([s] + rest)[1..] == rest;
  }

  lemma ScanTwo<S, P, F>(m: Machine<S, P, F>, a: S, b: S, rest: seq<S>, p: P)
    requires !m.stop(a) && !m.stop(b) && m.next(a, p) == p && m.next(b, p) == p
    ensures Scan(m, [a, b] + rest, p) == m.emit(a, p) + m.emit(b, p) + Scan(m, rest, p)
  {
    assert [a, b] + rest == [a] + ([b] + rest);
    ScanCons(m, a, [b] + rest, p);
    ScanCons(m, b, rest, p);
    ConcatAssoc(m.emit(a, p), m.emit(b, p), Scan(m, rest, p));
  }

  /** One step of a loop that scans with an accumulator. */
  lemma ScanNext<S, P, F>(m: Machine<S, P, F>, items: seq<S>, i: nat, p: P, acc: seq<F>)
    requires i < |items| && !m.stop(items[i])
    ensures acc + Scan(m, items[i..], p) == (acc + m.emit(items[i], p)) + Scan(m, items[i + 1..], m.next(items[i], p))
  {
    assert items[i..] == [items[i]] + items[i + 1..];
    ScanCons(m, items[i], items[i + 1..], p);
    ConcatAssoc(acc, m.emit(items[i], p), Scan(m, items[i + 1..], m.next(items[i], p)));
  }

  /** Nothing comes from behind the last item or a stop. */
  lemma ScanEnded<S, P, F>(m: Machine<S, P, F>, items: seq<S>, i: nat, p: P)
    requires i <= |items| && (i < |items| ==> m.stop(items[i]))
    ensures Scan(m, items[i..], p) == []
  {
    assert i < |items| ==> items[i..][0] == items[i];
  }

  lemma {:induction false} ScanJoin<S, P, F>(m: Machine<S, P, F>, a: seq<S>, b: seq<S>, p: P)
    requires NoStop(m, a, |a|)
    ensures Scan(m, a + b, p) == Scan(m, a, p) + Scan(m, b, After(m, a, p))
  {
    if a == [] {
      assert a + b == b;
    } else {
      var x, rest, q := a[0], a[1..], m.next(a[0], p);
      calc {
        Scan(m, a + b, p);
        { assert (a + b)[1..] == rest + b; }
        m.emit(x, p) + Scan(m, rest + b, q);
        { ScanJoin(m, rest, b, q); }
        m.emit(x, p) + (Scan(m, rest, q) + Scan(m, b, After(m, rest, q)));
        { ConcatAssoc(m.emit(x, p), Scan(m, rest, q), Scan(m, b, After(m, rest, q))); }
        (m.emit(x, p) + Scan(m, rest, q)) + Scan(m, b, After(m, rest, q));
        Scan(m, a, p) + Scan(m, b, After(m, rest, q));
        { AfterHead(m, a, p); }
        Scan(m, a, p) + Scan(m, b, After(m, a, p));
      }
    }
  }

  /** The scan up to and including one more item. */
  lemma ScanSnoc<S, P, F>(m: Machine<S, P, F>, items: seq<S>, x: S, p: P)
    requires NoStop(m, items, |items|) && !m.stop(x)
    ensures NoStop(m, items + [x], |items| + 1)
    ensures Scan(m, items + [x], p) == Scan(m, items, p) + m.emit(x, After(m, items, p))
    ensures After(m, items + [x], p) == m.next(x, After(m, items, p))
  {
    ScanJoin(m, items, [x], p);
    assert [x] == [x] + [];
    ScanCons(m, x, [], After(m, items, p));
    assert (items + [x])[..|items|] == items;
  }

  /** The scan around one item. */
  lemma ScanAround<S, P, F>(m: Machine<S, P, F>, items: seq<S>, i: nat, p0: P)
    requires i < |items| && NoStop(m, items, i + 1)
    ensures var p := After(m, items[..i], p0);
            Scan(m, items, p0) == Scan(m, items[..i], p0) + m.emit(items[i], p)
              + Scan(m, items[i + 1..], m.next(items[i], p))
  {
    var a, x, rest, p := items[..i], items[i], items[i + 1..], After(m, items[..i], p0);
    assert items == a + ([x] + rest);
    ScanJoin(m, a, [x] + rest, p0);
    ScanCons(m, x, rest, p);
    ConcatAssoc(Scan(m, a, p0), m.emit(x, p), Scan(m, rest, m.next(x, p)));
  }

  /** Replacing an item by one that leads to the same state replaces what it emits. */
  lemma ScanReplace<S, P, F>(m: Machine<S, P, F>, items: seq<S>, i: nat, y: S, p0: P)
    requires i < |items| && NoStop(m, items, i) && !m.stop(y)
    ensures var p := After(m, items[..i], p0);
            Scan(m, items[i := y], p0) == Scan(m, items[..i], p0) + m.emit(y, p) + Scan(m, items[i + 1..], m.next(y, p))
  {
    var now := items[i := y];
    assert now[..i] == items[..i] && now[i + 1..] == items[i + 1..];
    ScanAround(m, now, i, p0);
  }

  /** The scan around a run that emits nothing and the item it leads to. */
  lemma ScanRun<S, P, F>(m: Machine<S, P, F>, pre: seq<S>, run: seq<S>, x: S, post: seq<S>, p0: P)
    requires NoStop(m, pre, |pre|) && NoStop(m, run, |run|) && !m.stop(x)
    requires Scan(m, run, After(m, pre, p0)) == []
    ensures var q := After(m, run, After(m, pre, p0));
            Scan(m, pre + run + [x] + post, p0) == Scan(m, pre, p0) + m.emit(x, q) + Scan(m, post, m.next(x, q))
  {
    var p := After(m, pre, p0);
    var q := After(m, run, p);
    assert pre + run + [x] + post == pre + (run + ([x] + post));
    ScanJoin(m, pre, run + ([x] + post), p0);
    ScanJoin(m, run, [x] + post, p);
    ScanCons(m, x, post, q);
    ConcatAssoc(Scan(m, pre, p0), m.emit(x, q), Scan(m, post, m.next(x, q)));
  }

  lemma ScanStops<S, P, F>(m: Machine<S, P, F>, items: seq<S>, i: nat, p0: P)
    requires i < |items| && NoStop(m, items, i) && m.stop(items[i])
    ensures Scan(m, items, p0) == Scan(m, items[..i], p0)
  {
    assert items == items[..i] + items[i..];
    ScanJoin(m, items[..i], items[i..], p0);
    assert Scan(m, items[i..], After(m, items[..i], p0)) == [];
  }

  /** Result `k` was emitted by the item before which fewer than `k + 1` results were emitted. */
  lemma {:induction false} EmittedAt<S, P, F>(m: Machine<S, P, F>, items: seq<S>, n: nat, p0: P, k: nat)
      returns (i: nat)
    requires n <= |items| && NoStop(m, items, n) && k < |Scan(m, items[..n], p0)|
    ensures i < n
    ensures |Scan(m, items[..i], p0)| <= k < |Scan(m, items[..i], p0)| + |m.emit(items[i], After(m, items[..i], p0))|
    ensures Scan(m, items[..n], p0)[k] == m.emit(items[i], After(m, items[..i], p0))[k - |Scan(m, items[..i], p0)|]
  {
    var last, init := items[n - 1], items[..n - 1];
    assert items[..n] == init + [last];
    ScanJoin(m, init, [last], p0);
    assert last == [last][0] && [last] == [last] + [];
    ScanCons(m, last, [], After(m, init, p0));
    if k < |Scan(m, init, p0)| {
      i := EmittedAt(m, items, n - 1, p0, k);
    } else {
      i := n - 1;
    }
  }
}
