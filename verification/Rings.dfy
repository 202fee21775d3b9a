/** Circular doubly linked lists in memory: a head node and the nodes that follow it. */
module Rings {
  import opened SlabModel

  /** The link words at each address. */
  datatype Links = Links(next: map<nat, nat>, prev: map<nat, nat>)

  /** `a` points forward to `b`, and `b` back to `a`. */
  predicate Linked(l: Links, a: nat, b: nat) {
    a in l.next && b in l.prev && l.next[a] == b && l.prev[b] == a
  }

  /** From `a`, through all of `s` in order, to `b`. */
  predicate Path(l: Links, a: nat, s: seq<nat>, b: nat)
    decreases |s|
  {
    if s == [] then Linked(l, a, b) else Linked(l, a, s[0]) && Path(l, s[0], s[1..], b)
  }

  function Nodes(head: nat, s: seq<nat>): seq<nat> { [head] + s }

  /** The list with that head holds exactly `s`, in order, each node once; `prev` inverts `next`. */
  predicate Ring(l: Links, head: nat, s: seq<nat>) {
    Distinct(Nodes(head, s)) && Path(l, head, s, head)
  }

  /** `ListNode::init`: a list of its own. */
  function Alone(l: Links, node: nat): Links {
    Links(l.next[node := node], l.prev[node := node])
  }

  /** `list_add`. */
  function Add(l: Links, entry: nat, head: nat): Links
    requires head in l.next
  {
    Links(l.next[entry := l.next[head]][head := entry], l.prev[entry := head][l.next[head] := entry])
  }

  /** `list_del`. */
  function Del(l: Links, entry: nat): Links
    requires entry in l.next && entry in l.prev
  {
    Links(l.next[l.prev[entry] := l.next[entry]], l.prev[l.next[entry] := l.prev[entry]])
  }

  /** The links at `x` are the same in both. */
  predicate SameAt(l: Links, l': Links, x: nat) {
    SameNext(l, l', x) && SamePrev(l, l', x)
  }

  predicate SameNext(l: Links, l': Links, x: nat) {
    x in l.next ==> x in l'.next && l'.next[x] == l.next[x]
  }

  predicate SamePrev(l: Links, l': Links, x: nat) {
    x in l.prev ==> x in l'.prev && l'.prev[x] == l.prev[x]
  }

  lemma {:induction false} PathFrame(l: Links, l': Links, a: nat, s: seq<nat>, b: nat)
    requires Path(l, a, s, b) && SameNext(l, l', a) && SamePrev(l, l', b)
    requires forall x :: x in s ==> SameAt(l, l', x)
    ensures Path(l', a, s, b)
    decreases |s|
  {
    if s != [] {
      assert s[0] in s;
      PathFrame(l, l', s[0], s[1..], b);
    }
  }

  lemma PathFirst(l: Links, a: nat, s: seq<nat>, b: nat)
    requires Path(l, a, s, b)
    ensures a in l.next && l.next[a] == (if s == [] then b else s[0])
  {
  }

  lemma {:induction false} PathLast(l: Links, a: nat, s: seq<nat>, b: nat)
    requires Path(l, a, s, b)
    ensures b in l.prev && l.prev[b] == (if s == [] then a else s[|s| - 1])
    decreases |s|
  {
    if s != [] {
      PathLast(l, s[0], s[1..], b);
    }
  }

  lemma {:induction false} PathSplit(l: Links, a: nat, s: seq<nat>, e: nat, t: seq<nat>, b: nat)
    requires Path(l, a, s + [e] + t, b)
    ensures Path(l, a, s, e) && Path(l, e, t, b)
    decreases |s|
  {
    var whole := s + [e] + t;
    if s == [] {
      assert whole == [e] + t;
    } else {
      assert whole[0] == s[0] && whole[1..] == s[1..] + [e] + t;
      PathSplit(l, s[0], s[1..], e, t, b);
    }
  }

  lemma RingFrame(l: Links, l': Links, head: nat, s: seq<nat>)
    requires Ring(l, head, s)
    requires forall x :: x in Nodes(head, s) ==> SameAt(l, l', x)
    ensures Ring(l', head, s)
  {
    PathFirst(l, head, s, head);
    PathLast(l, head, s, head);
    assert head in Nodes(head, s);
    forall x | x in s
      ensures SameAt(l, l', x)
    {
      assert x in Nodes(head, s);
    }
    PathFrame(l, l', head, s, head);
  }

  /** Adding a node puts it first. */
  lemma AddRing(l: Links, entry: nat, head: nat, s: seq<nat>)
    requires Ring(l, head, s) && entry !in Nodes(head, s)
    ensures head in l.next && Ring(Add(l, entry, head), head, [entry] + s)
  {
    PathFirst(l, head, s, head);
    var l' := Add(l, entry, head);
    assert ([entry] + s)[1..] == s;
    assert head in Nodes(head, s);
    assert Distinct(Nodes(head, [entry] + s)) by {
      assert Nodes(head, [entry] + s) == [head] + [entry] + s;
      DistinctInsert([head], entry, s);
    }
    if s != [] {
      RestKept(l, l', head, s, entry);
    }
  }

  lemma RestKept(l: Links, l': Links, head: nat, s: seq<nat>, entry: nat)
    requires Ring(l, head, s) && entry !in Nodes(head, s) && s != [] && head in l.next && l' == Add(l, entry, head)
    ensures Path(l', s[0], s[1..], head)
  {
    var n := Nodes(head, s);
    assert n[0] == head && n[1] == s[0] && n[1] in n;
    PathFirst(l, s[0], s[1..], head);
    PathLast(l, s[0], s[1..], head);
    forall x | x in s[1..]
      ensures SameAt(l, l', x)
    {
      var i :| 0 <= i < |s| - 1 && s[1..][i] == x;
      assert n[i + 2] == x && n[i + 2] in n;
    }
    PathFrame(l, l', s[0], s[1..], head);
  }

  /** Only nodes of the list and the new one get different links. */
  lemma AddElsewhere(l: Links, entry: nat, head: nat, s: seq<nat>, x: nat)
    requires Ring(l, head, s) && x != entry && x !in Nodes(head, s)
    ensures head in l.next && SameAt(l, Add(l, entry, head), x)
  {
    PathFirst(l, head, s, head);
    var n := Nodes(head, s);
    assert n[0] == head && (s != [] ==> n[1] == s[0]);
  }

  /** A path with one node taken out of it. */
  lemma {:induction false} DelPath(l: Links, a: nat, s: seq<nat>, e: nat, t: seq<nat>, b: nat)
    requires Path(l, a, s, e) && Path(l, e, t, b) && Distinct([a] + s + [e] + t) && b !in s + [e] + t
    ensures e in l.next && e in l.prev && Path(Del(l, e), a, s + t, b)
    decreases |s|
  {
    PathFirst(l, e, t, b);
    PathLast(l, a, s, e);
    var l', w := Del(l, e), [a] + s + [e] + t;
    if s == [] {
      assert s + t == t && w == [a, e] + t;
      if t != [] {
        DelTail(l, a, e, t, b);
      }
    } else {
      assert w[0] == a && w[|s|] == s[|s| - 1] && w[1] == s[0];
      assert w[1..] == [s[0]] + s[1..] + [e] + t;
      assert s[0] in s + [e] + t;
      assert s[1..] + [e] + t == (s + [e] + t)[1..];
      DelPath(l, s[0], s[1..], e, t, b);
      assert (s + t)[1..] == s[1..] + t;
      assert t != [] ==> w[|s| + 2] == t[0];
    }
  }

  lemma DelTail(l: Links, a: nat, e: nat, t: seq<nat>, b: nat)
    requires Linked(l, a, e) && Path(l, e, t, b) && t != [] && Distinct([a, e] + t) && b !in [e] + t
    ensures e in l.next && Path(Del(l, e), a, t, b)
  {
    PathFirst(l, e, t, b);
    PathFirst(l, t[0], t[1..], b);
    PathLast(l, t[0], t[1..], b);
    var w := [a, e] + t;
    assert w[0] == a && w[2] == t[0] && t[0] in [e] + t;
    forall x | x in t[1..]
      ensures SameAt(l, Del(l, e), x)
    {
      var i :| 0 <= i < |t| - 1 && t[1..][i] == x;
      assert w[i + 3] == x;
    }
    PathFrame(l, Del(l, e), t[0], t[1..], b);
  }

  /** Splits a list at its only occurrence of a node. */
  lemma {:induction false} RemoveSplit(s: seq<nat>, e: nat) returns (a: seq<nat>, b: seq<nat>)
    requires e in s
    ensures s == a + [e] + b && Remove(s, e) == a + b && e !in a
  {
    if s[0] == e {
      a, b := [], s[1..];
    } else {
      a, b := RemoveSplit(s[1..], e);
      a := [s[0]] + a;
    }
  }

  /** Deleting a node takes it, and nothing else, out of the list. */
  lemma DelRing(l: Links, entry: nat, head: nat, s: seq<nat>)
    requires Ring(l, head, s) && entry in s
    ensures entry in l.next && entry in l.prev && Ring(Del(l, entry), head, Remove(s, entry))
    ensures entry !in Nodes(head, Remove(s, entry))
  {
    var a, b := RemoveSplit(s, entry);
    HeadOutside(head, s);
    assert Nodes(head, s) == [head] + a + [entry] + b;
    assert Nodes(head, a + b) == ([head] + a) + b;
    DistinctWithout([head] + a, entry, b);
    PathSplit(l, head, a, entry, b, head);
    DelPath(l, head, a, entry, b, head);
  }

  lemma HeadOutside(head: nat, s: seq<nat>)
    requires Distinct(Nodes(head, s))
    ensures head !in s
  {
    forall i | 0 <= i < |s|
      ensures s[i] != head
    {
      assert Nodes(head, s)[i + 1] == s[i] && Nodes(head, s)[0] == head;
    }
  }

  lemma DistinctWithout(a: seq<nat>, e: nat, b: seq<nat>)
    requires Distinct(a + [e] + b)
    ensures Distinct(a + b) && e !in a + b
  {
    var w := a + [e] + b;
    forall i | 0 <= i < |a + b|
      ensures (a + b)[i] == w[if i < |a| then i else i + 1] && (a + b)[i] != e
    {
      assert w[|a|] == e;
    }
  }

  /** Only the node's neighbours get different links. */
  lemma DelElsewhere(l: Links, entry: nat, head: nat, s: seq<nat>, x: nat)
    requires Ring(l, head, s) && entry in s && x !in Nodes(head, s)
    ensures entry in l.next && entry in l.prev && SameAt(l, Del(l, entry), x)
  {
    var a, b := RemoveSplit(s, entry);
    PathSplit(l, head, a, entry, b, head);
    PathLast(l, head, a, entry);
    PathFirst(l, entry, b, head);
    var n := Nodes(head, s);
    assert n == [head] + a + [entry] + b;
    assert n[0] == head && n[|a|] == (if a == [] then head else a[|a| - 1]);
    assert b != [] ==> n[|a| + 2] == b[0];
  }

  lemma {:induction false} PathInverse(l: Links, a: nat, s: seq<nat>, b: nat, x: nat)
    requires Path(l, a, s, b) && (x == a || x in s)
    ensures x in l.next && l.next[x] in l.prev && l.prev[l.next[x]] == x && (l.next[x] == b || l.next[x] in s)
    decreases |s|
  {
    if s != [] && x != a {
      PathInverse(l, s[0], s[1..], b, x);
    }
  }

  lemma {:induction false} PathInverseBack(l: Links, a: nat, s: seq<nat>, b: nat, x: nat)
    requires Path(l, a, s, b) && (x == b || x in s)
    ensures x in l.prev && l.prev[x] in l.next && l.next[l.prev[x]] == x && (l.prev[x] == a || l.prev[x] in s)
    decreases |s|
  {
    if s != [] && (x != s[0] || x in s[1..]) {
      PathInverseBack(l, s[0], s[1..], b, x);
    }
  }

  /** In a list, next and previous are inverses of each other and stay in the list. */
  lemma RingInverse(l: Links, head: nat, s: seq<nat>, x: nat)
    requires Ring(l, head, s) && x in Nodes(head, s)
    ensures x in l.next && l.next[x] in Nodes(head, s) && l.next[x] in l.prev && l.prev[l.next[x]] == x
    ensures x in l.prev && l.prev[x] in Nodes(head, s) && l.prev[x] in l.next && l.next[l.prev[x]] == x
  {
    PathInverse(l, head, s, head, x);
    PathInverseBack(l, head, s, head, x);
  }
}
