/** OrderedSet: a circular doubly linked list threaded through a sentinel, and a map from keys to nodes. */
module OrderedSets {
  import opened Options
  import opened Seqs

  /** A `[key, prev, next]` cell; only the sentinel has no key. */
  class Node<T> {
    const key: Option<T>
    var prev: Node<T>
    var next: Node<T>

    constructor Sentinel()
      ensures key == None && prev == this && next == this
    {
      key, prev, next := None, this, this;
    }

    constructor Cell(key: T, prev: Node<T>, next: Node<T>)
      ensures this.key == Some(key) && this.prev == prev && this.next == next
    {
      this.key, this.prev, this.next := Some(key), prev, next;
    }
  }

  ghost predicate Distinct<T>(s: seq<T>) {
    forall i, j :: 0 <= i < j < |s| ==> s[i] != s[j]
  }

  /** The sequence without the occurrences of one element. */
  function Removed<T(==)>(s: seq<T>, x: T): seq<T> {
    if s == [] then [] else (if s[0] == x then [] else [s[0]]) + Removed(s[1..], x)
  }

  lemma {:induction false} RemovedAbsent<T>(s: seq<T>, x: T)
    requires x !in s
    ensures Removed(s, x) == s
  {
    if s != [] { RemovedAbsent(s[1..], x); }
  }

  lemma {:induction false} RemovedAt<T>(s: seq<T>, i: nat)
    requires Distinct(s) && i < |s|
    ensures Removed(s, s[i]) == Without(s, i)
  {
    if i == 0 {
      RemovedAbsent(s[1..], s[0]);
      assert Without(s, 0) == s[1..];
    } else {
      RemovedAt(s[1..], i - 1);
      assert Without(s, i) == [s[0]] + Without(s[1..], i - 1);
    }
  }

  lemma RemovedLast<T>(s: seq<T>, x: T)
    requires Distinct(s + [x])
    ensures Removed(s + [x], x) == s
  {
    assert (s + [x])[|s|] == x;
    RemovedAt(s + [x], |s|);
    assert Without(s + [x], |s|) == s;
  }

  /** Following `next` walks the ring forwards, following `prev` walks it backwards. */
  ghost predicate Linked<T>(ring: seq<Node<T>>)
    reads ring
  {
    && (forall i {:trigger ring[i].next} :: 0 <= i < |ring| - 1 ==> ring[i].next == ring[i + 1])
    && (forall i {:trigger ring[i].prev} :: 0 < i < |ring| ==> ring[i].prev == ring[i - 1])
  }

  /** One turn of a ring: the sentinel, distinct cells, and the sentinel again. */
  ghost predicate OneTurn<T>(ring: seq<Node<T>>) {
    |ring| >= 2 && ring[0] == ring[|ring| - 1] && Distinct(ring[..|ring| - 1])
  }

  lemma CellsDistinct<T>(ring: seq<Node<T>>)
    requires OneTurn(ring)
    ensures forall i, j :: 0 <= i < j < |ring| - 1 ==> ring[i] != ring[j]
  {}

  ghost predicate IsWithout<T>(now: seq<T>, s: seq<T>, p: nat)
    requires p < |s|
  {
    && |now| == |s| - 1
    && (forall i :: 0 <= i < p ==> now[i] == s[i])
    && (forall i :: p <= i < |now| ==> now[i] == s[i + 1])
  }

  /** Taking a cell out of the ring; `now` is the ring without it. */
  method Unlink<T>(cell: Node<T>, ghost ring: seq<Node<T>>, ghost p: nat, ghost now: seq<Node<T>>)
    requires OneTurn(ring) && Linked(ring)
    requires 0 < p < |ring| - 1 && ring[p] == cell && IsWithout(now, ring, p)
    modifies cell.prev, cell.next
    ensures Linked(now)
  {
    CellsDistinct(ring);
    var prev, next := cell.prev, cell.next;
    assert prev == ring[p - 1] && next == ring[p + 1];
    prev.next := next;
    next.prev := prev;
    forall i | 0 <= i < |now| - 1 ensures now[i].next == now[i + 1] {
      if i < p - 1 { assert ring[i] != ring[p - 1]; } else if i >= p { assert ring[i + 1] != ring[p - 1]; }
    }
    forall i | 0 < i < |now| ensures now[i].prev == now[i - 1] {
      if i < p { assert ring[i] != next; } else if i > p { assert ring[i + 1] != next; }
    }
  }

  /** Putting a new cell between the last cell and the sentinel. */
  method LinkLast<T>(key: T, end: Node<T>, ghost ring: seq<Node<T>>) returns (cell: Node<T>)
    requires OneTurn(ring) && Linked(ring) && ring[0] == end
    modifies ring
    ensures fresh(cell) && cell.key == Some(key)
    ensures OneTurn(ring[..|ring| - 1] + [cell, end]) && Linked(ring[..|ring| - 1] + [cell, end])
  {
    ghost var n, cells := |ring|, ring[..|ring| - 1];
    var curr := end.prev;
    assert curr == ring[n - 1].prev == ring[n - 2];
    cell := new Node.Cell(key, curr, end);
    curr.next := cell;
    end.prev := cell;
    ghost var now := cells + [cell, end];
    assert forall i :: 0 <= i < n - 1 ==> now[i] == cells[i] == ring[i] && now[i] != cell;
    forall i | 0 <= i < |now| - 1 ensures now[i].next == now[i + 1] {
      if i < n - 2 { assert cells[i] != cells[n - 2]; }
    }
    forall i | 0 < i < |now| ensures now[i].prev == now[i - 1] {
      if i < n - 1 { assert cells[i] != cells[0]; }
    }
  }

  /** The map holds exactly the elements, each with its own cell of the ring. */
  ghost predicate Indexes<T(!new)>(index: map<T, Node<T>>, elements: seq<T>, ring: seq<Node<T>>)
  {
    && |ring| == |elements| + 2 && Distinct(elements)
    && (forall k :: k in index <==> k in elements)
    && (forall i :: 0 <= i < |elements| ==> elements[i] in index && index[elements[i]] == ring[i + 1])
    && forall i :: 0 <= i < |elements| ==> ring[i + 1].key == Some(elements[i])
  }

  lemma OneTurnWithout<T>(ring: seq<Node<T>>, p: nat, now: seq<Node<T>>)
    requires OneTurn(ring) && 0 < p < |ring| - 1 && IsWithout(now, ring, p)
    ensures OneTurn(now)
  {}

  lemma DistinctWithout<T>(s: seq<T>, p: nat, rest: seq<T>)
    requires Distinct(s) && p < |s| && IsWithout(rest, s, p)
    ensures Distinct(rest) && s[p] !in rest
    ensures forall x :: x in s ==> x == s[p] || x in rest
    ensures forall x :: x in rest ==> x in s
  {
    forall x | x in s ensures x == s[p] || x in rest {
      var i :| 0 <= i < |s| && s[i] == x;
      if i != p { assert rest[if i < p then i else i - 1] == x; }
    }
  }

  lemma IndexesWithout<T(!new)>(index: map<T, Node<T>>, elements: seq<T>, ring: seq<Node<T>>, p: nat, rest: seq<T>, now: seq<Node<T>>)
    requires Indexes(index, elements, ring) && p < |elements|
    requires IsWithout(rest, elements, p) && IsWithout(now, ring, p + 1)
    ensures Indexes(index - {elements[p]}, rest, now)
  {
    DistinctWithout(elements, p, rest);
    var after := index - {elements[p]};
    forall i | 0 <= i < |rest|
      ensures rest[i] in after && after[rest[i]] == now[i + 1] && now[i + 1].key == Some(rest[i])
    {
      var j := if i < p then i else i + 1;
      assert rest[i] == elements[j] && now[i + 1] == ring[j + 1] && rest[i] in rest;
    }
  }

  /** The lists and the map without the element at `p`. */
  lemma Shrink<T(!new)>(index: map<T, Node<T>>, elements: seq<T>, ring: seq<Node<T>>, p: nat) returns (rest: seq<T>, now: seq<Node<T>>)
    requires Indexes(index, elements, ring) && OneTurn(ring) && p < |elements|
    ensures rest == Removed(elements, elements[p]) && IsWithout(now, ring, p + 1)
    ensures OneTurn(now) && Indexes(index - {elements[p]}, rest, now)
  {
    rest, now := Without(elements, p), Without(ring, p + 1);
    RemovedAt(elements, p);
    OneTurnWithout(ring, p + 1, now);
    IndexesWithout(index, elements, ring, p, rest, now);
  }

  lemma Locate<T(!new)>(index: map<T, Node<T>>, elements: seq<T>, ring: seq<Node<T>>, key: T) returns (p: nat)
    requires Indexes(index, elements, ring) && key in index
    ensures p < |elements| && elements[p] == key && |ring| == |elements| + 2 && index[key] == ring[p + 1]
  {
    p :| 0 <= p < |elements| && elements[p] == key;
  }

  lemma Unindexed<T(!new)>(index: map<T, Node<T>>, elements: seq<T>, ring: seq<Node<T>>, key: T)
    requires Indexes(index, elements, ring)
    ensures key in index <==> key in elements
  {}

  /** The lists and the map with one more element at the end. */
  lemma Grow<T(!new)>(index: map<T, Node<T>>, elements: seq<T>, ring: seq<Node<T>>, cell: Node<T>, key: T, end: Node<T>, now: seq<Node<T>>)
    requires Indexes(index, elements, ring) && key !in index && cell.key == Some(key)
    requires now == ring[..|ring| - 1] + [cell, end]
    ensures Indexes(index[key := cell], elements + [key], now)
  {}

  lemma EmptyTogether<T(!new)>(index: map<T, Node<T>>, elements: seq<T>)
    requires forall k :: k in index <==> k in elements
    ensures elements == [] <==> index == map[]
  {
    if elements != [] { assert elements[0] in index; }
  }

  /** The elements of a list where they first appear. */
  ghost function Firsts<T(!new)>(s: seq<T>): (r: seq<T>)
    ensures forall x :: x in r <==> x in s
    ensures forall i, j :: 0 <= i < j < |r| ==> r[i] != r[j]
  {
    if s == [] then
      []
    else
      var front, last := Firsts(s[..|s| - 1]), s[|s| - 1];
      assert s == s[..|s| - 1] + [last];
      if last in front then front else front + [last]
  }

  class OrderedSet<T(==,!new)> {
    const end: Node<T>
    var index: map<T, Node<T>>
    /** The elements in insertion order. */
    ghost var elements: seq<T>
    /** The sentinel, the cells of the elements in order, and the sentinel again. */
    ghost var ring: seq<Node<T>>
    ghost var Repr: set<object>

    ghost predicate Valid()
      reads this, Repr
    {
      && this in Repr && (forall i :: 0 <= i < |ring| ==> ring[i] in Repr)
      && |ring| >= 2 && ring[0] == end
      && OneTurn(ring) && Linked(ring) && Indexes(index, elements, ring)
    }

    constructor (iterable: seq<T>)
      ensures Valid() && fresh(Repr) && elements == Firsts(iterable)
    {
      end := new Node<T>.Sentinel();
      index, elements := map[], [];
      new;
      ring := [end, end];
      Repr := {this, end};
      for i := 0 to |iterable|
        invariant Valid() && fresh(Repr) && elements == Firsts(iterable[..i])
      {
        assert iterable[..i + 1][..i] == iterable[..i];
        Add(iterable[i]);
      }
      assert iterable[..|iterable|] == iterable;
    }

    predicate Contains(key: T)
      requires Valid()
      reads this, Repr
      ensures Contains(key) <==> key in elements
    {
      key in index
    }

    method Add(key: T)
      requires Valid()
      modifies Repr
      ensures Valid() && fresh(Repr - old(Repr))
      ensures elements == if key in old(elements) then old(elements) else old(elements) + [key]
    {
      hide Indexes;
      Unindexed(index, elements, ring, key);
      if key !in index {
        var cell := LinkLast(key, end, ring);
        ghost var now := ring[..|ring| - 1] + [cell, end];
        Grow(index, elements, ring, cell, key, end, now);
        index := index[key := cell];
        elements, ring, Repr := elements + [key], now, Repr + {cell};
      }
    }

    method Discard(key: T)
      requires Valid()
      modifies Repr
      ensures Valid() && Repr == old(Repr)
      ensures elements == Removed(old(elements), key)
    {
      hide Indexes, OneTurn;
      if key in index {
        ghost var was := ring;
        var cell := index[key];
        ghost var p := Locate(index, elements, ring, key);
        ghost var rest, now := Shrink(index, elements, ring, p);
        index := index - {key};
        elements, ring := rest, now;
        assert cell.prev == was[p] && cell.next == was[p + 2];
        Unlink(cell, was, p + 1, now);
      } else {
        Unindexed(index, elements, ring, key);
        RemovedAbsent(elements, key);
      }
    }

    /** `pop`: the last element, or the first, is discarded and returned; a KeyError on the empty set. */
    method Pop(last: bool) returns (r: Option<T>)
      requires Valid()
      modifies Repr
      ensures Valid() && Repr == old(Repr)
      ensures old(elements) == [] ==> r == None && elements == []
      ensures old(elements) != [] ==>
        var n := |old(elements)|;
        if last then r == Some(old(elements)[n - 1]) && elements == old(elements)[..n - 1]
        else r == Some(old(elements)[0]) && elements == old(elements)[1..]
    {
      EmptyTogether(index, elements);
      if index == map[] {
        return None;
      }
      var key;
      if last {
        assert end.prev == ring[|ring| - 1].prev == ring[|ring| - 2];
        assert ring[|elements|].key == Some(elements[|elements| - 1]);
        key := end.prev.key;
      } else {
        assert end.next == ring[0].next == ring[1];
        assert ring[1].key == Some(elements[0]);
        key := end.next.key;
      }
      RemovedAt(elements, if last then |elements| - 1 else 0);
      Discard(key.value);
      return key;
    }

    /** `__iter__`: the keys met by following `next` from the sentinel back to it. */
    method Iterate() returns (s: seq<T>)
      requires Valid()
      ensures s == elements
    {
      s := [];
      var curr := end.next;
      ghost var p := 1;
      assert curr == ring[0].next == ring[1];
      while curr != end
        invariant 1 <= p < |ring| && curr == ring[p] && s == elements[..p - 1]
        decreases |ring| - p
      {
        assert p != |ring| - 1;
        assert curr.key == Some(elements[p - 1]);
        s := s + [curr.key.value];
        curr := curr.next;
        p := p + 1;
      }
    }

    /** `__reversed__`: the keys met by following `prev`. */
    method Reversed() returns (s: seq<T>)
      requires Valid()
      ensures |s| == |elements| && forall i :: 0 <= i < |s| ==> s[i] == elements[|s| - 1 - i]
    {
      s := [];
      var curr := end.prev;
      ghost var p := |ring| - 2;
      assert curr == ring[|ring| - 1].prev == ring[p];
      while curr != end
        invariant 0 <= p < |ring| - 1 && curr == ring[p] && |s| == |elements| - p
        invariant forall i :: 0 <= i < |s| ==> s[i] == elements[|elements| - 1 - i]
        decreases p
      {
        assert p != 0;
        assert curr.key == Some(elements[p - 1]);
        s := s + [curr.key.value];
        curr := curr.prev;
        p := p - 1;
      }
    }
  }
}
