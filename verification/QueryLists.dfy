/** What moving a query between the two lists of dnsperf means, on sequences without repetition. */
module Lists {
  datatype MoveOp = PrependUnused | AppendUnused | PrependOutstanding

  datatype Pair<T(==)> = Pair(unused: seq<T>, outstanding: seq<T>)

  ghost predicate Distinct<T>(s: seq<T>) {
    forall i, j :: 0 <= i < j < |s| ==> s[i] != s[j]
  }

  ghost predicate Apart<T>(a: seq<T>, b: seq<T>) {
    && (forall i :: 0 <= i < |a| ==> a[i] !in b)
    && (forall i :: 0 <= i < |b| ==> b[i] !in a)
  }

  ghost function Elems<T>(s: seq<T>): set<T> { set q | q in s }

  /** The two lists are a partition of the pool. */
  ghost predicate Partition<T>(p: Pair<T>, pool: set<T>) {
    && Distinct(p.unused) && Distinct(p.outstanding)
    && Elems(p.unused) !! Elems(p.outstanding)
    && Elems(p.unused) + Elems(p.outstanding) == pool
  }

  function Without<T(==)>(s: seq<T>, q: T): seq<T> {
    if s == [] then [] else if s[0] == q then s[1..] else [s[0]] + Without(s[1..], q)
  }

  /** query_move */
  function Move<T(==)>(p: Pair<T>, q: T, op: MoveOp): Pair<T> {
    var unused, outstanding := Without(p.unused, q), Without(p.outstanding, q);
    match op
    case PrependUnused => Pair([q] + unused, outstanding)
    case AppendUnused => Pair(unused + [q], outstanding)
    case PrependOutstanding => Pair(unused, [q] + outstanding)
  }

  lemma {:induction false} WithoutAt<T>(s: seq<T>, k: nat)
    requires Distinct(s) && k < |s|
    ensures Without(s, s[k]) == s[..k] + s[k + 1..]
  {
    if k > 0 {
      WithoutAt(s[1..], k - 1);
      assert s[1..][..k - 1] == s[1..k] && s[1..][k..] == s[k + 1..];
    }
  }

  /** The ends and the members of a list with one element taken out. */
  lemma {:induction false} TakenFrom<T>(s: seq<T>, q: T) returns (k: nat)
    requires Distinct(s) && q in s
    ensures k < |s| && s[k] == q
    ensures var t := Without(s, q);
            && t == s[..k] + s[k + 1..] && Distinct(t)
            && (t == [] <==> |s| == 1)
            && (t != [] ==> t[0] == (if k > 0 then s[0] else s[1]) && t[|t| - 1] == (if k < |s| - 1 then s[|s| - 1] else s[k - 1]))
            && (forall i :: 0 <= i < |t| ==> t[i] in s && t[i] != q)
  {
    k :| 0 <= k < |s| && s[k] == q;
    WithoutAt(s, k);
  }

  lemma {:induction false} WithoutStranger<T>(s: seq<T>, q: T)
    requires q !in s
    ensures Without(s, q) == s
  {
    if s != [] { WithoutStranger(s[1..], q); }
  }

  lemma {:induction false} WithoutElems<T>(s: seq<T>, q: T)
    requires Distinct(s)
    ensures Distinct(Without(s, q)) && q !in Without(s, q)
    ensures Elems(Without(s, q)) == Elems(s) - {q}
    ensures |Without(s, q)| == if q in s then |s| - 1 else |s|
  {
    if q in s {
      var k :| 0 <= k < |s| && s[k] == q;
      WithoutAt(s, k);
      assert forall x :: x in s ==> x in s[..k] || x == q || x in s[k + 1..];
    } else {
      WithoutStranger(s, q);
    }
  }

  lemma {:induction false} ElemsWith<T>(s: seq<T>, q: T)
    requires Distinct(s) && q !in s
    ensures Distinct([q] + s) && Elems([q] + s) == Elems(s) + {q}
    ensures Distinct(s + [q]) && Elems(s + [q]) == Elems(s) + {q}
  {
  }

  lemma {:induction false} PartitionMembers<T>(p: Pair<T>, pool: set<T>)
    requires Partition(p, pool)
    ensures forall x :: x in p.unused ==> x in pool
    ensures forall x :: x in p.outstanding ==> x in pool
    ensures forall x :: x in pool ==> x in p.unused || x in p.outstanding
    ensures Apart(p.unused, p.outstanding)
  {
    assert forall x :: x in p.unused ==> x in Elems(p.unused);
    assert forall x :: x in p.outstanding ==> x in Elems(p.outstanding);
  }

  lemma {:induction false} PartitionWith<T>(unused: seq<T>, q: T, pool: set<T>)
    requires Partition(Pair(unused, []), pool) && q !in pool
    ensures q !in unused && Partition(Pair(unused + [q], []), pool + {q})
  {
    PartitionMembers(Pair(unused, []), pool);
    ElemsWith(unused, q);
  }

  /** A query is on exactly one of the lists, and taking it off leaves the other as it was. */
  lemma {:induction false} OnOneList<T>(p: Pair<T>, q: T, pool: set<T>)
    requires Partition(p, pool) && q in pool
    ensures q in p.unused ==> q !in p.outstanding && Without(p.outstanding, q) == p.outstanding
    ensures q !in p.unused ==> q in p.outstanding && Without(p.unused, q) == p.unused
    ensures q !in Without(p.unused, q) && q !in Without(p.outstanding, q)
    ensures forall x :: x in Without(p.unused, q) ==> x in pool
    ensures forall x :: x in Without(p.outstanding, q) ==> x in pool
    ensures Apart(Without(p.unused, q), Without(p.outstanding, q))
  {
    PartitionMembers(p, pool);
    if q in p.unused {
      var k := TakenFrom(p.unused, q);
      WithoutStranger(p.outstanding, q);
    } else {
      var k := TakenFrom(p.outstanding, q);
      WithoutStranger(p.unused, q);
    }
  }

  /** A move keeps the partition, and puts the query where the operation says. */
  lemma {:induction false} MoveKeepsPartition<T>(p: Pair<T>, q: T, op: MoveOp, pool: set<T>)
    requires Partition(p, pool) && q in pool
    ensures Partition(Move(p, q, op), pool)
    ensures q in Move(p, q, op).outstanding <==> op == PrependOutstanding
  {
    WithoutElems(p.unused, q);
    WithoutElems(p.outstanding, q);
    ElemsWith(Without(p.unused, q), q);
    ElemsWith(Without(p.outstanding, q), q);
  }

  lemma {:induction false} DistinctCount<T>(s: seq<T>)
    requires Distinct(s)
    ensures |Elems(s)| == |s|
  {
    if s != [] {
      DistinctCount(s[1..]);
      assert Elems(s) == {s[0]} + Elems(s[1..]);
    }
  }

  /** Taking one query off the outstanding list, or finding it already gone. */
  lemma {:induction false} Removal<T>(p: Pair<T>, q: T, op: MoveOp, pool: set<T>)
    requires Partition(p, pool) && q in pool && op != PrependOutstanding
    ensures Partition(Move(p, q, op), pool)
    ensures |Move(p, q, op).outstanding| == if q in p.outstanding then |p.outstanding| - 1 else |p.outstanding|
    ensures forall x :: x in Move(p, q, op).outstanding <==> x in p.outstanding && x != q
  {
    MoveKeepsPartition(p, q, op, pool);
    WithoutElems(p.outstanding, q);
    var rest := Without(p.outstanding, q);
    forall x
      ensures x in rest <==> x in p.outstanding && x != q
    {
      assert x in rest <==> x in Elems(rest);
      assert x in p.outstanding <==> x in Elems(p.outstanding);
    }
  }

  lemma {:induction false} Addition<T>(p: Pair<T>, q: T, pool: set<T>)
    requires Partition(p, pool) && q in p.unused && q in pool
    ensures Partition(Move(p, q, PrependOutstanding), pool)
    ensures q !in p.outstanding && Move(p, q, PrependOutstanding).outstanding == [q] + p.outstanding
  {
    MoveKeepsPartition(p, q, PrependOutstanding, pool);
    OnOneList(p, q, pool);
  }
}

/**
 * The intrusive doubly linked lists of src/list.h, and query_move of src/dnsperf.c on two of them
 * that share one pool of nodes.
 */
module QueryLists {
  import opened Lists

  class Query {
    var prev: Query?
    var next: Query?
    var list: QueryList?

    constructor ()
      ensures prev == null && next == null && list == null
    {
      prev, next, list := null, null, null;
    }
  }

  /** Node i links back to node i - 1 and forward to node i + 1; the ends link to nothing. */
  ghost predicate LinkedBack(s: seq<Query>, i: nat)
    requires i < |s|
    reads s`prev
  {
    s[i].prev == if i == 0 then null else s[i - 1]
  }

  ghost predicate LinkedOn(s: seq<Query>, i: nat)
    requires i < |s|
    reads s`next
  {
    s[i].next == if i == |s| - 1 then null else s[i + 1]
  }

  ghost predicate Linked(s: seq<Query>)
    reads s`prev, s`next
  {
    forall i :: 0 <= i < |s| ==> LinkedBack(s, i) && LinkedOn(s, i)
  }

  /** Bypassing node k leaves the others linked as a list of their own. */
  lemma {:induction false} Bypassed(s: seq<Query>, k: nat)
    requires Distinct(s) && k < |s|
    requires forall i :: 0 <= i < |s| && i != k && i != k + 1 ==> LinkedBack(s, i)
    requires forall i :: 0 <= i < |s| && i != k && i + 1 != k ==> LinkedOn(s, i)
    requires k + 1 < |s| ==> s[k + 1].prev == if k == 0 then null else s[k - 1]
    requires k > 0 ==> s[k - 1].next == if k == |s| - 1 then null else s[k + 1]
    ensures Distinct(s[..k] + s[k + 1..]) && Linked(s[..k] + s[k + 1..])
  {
    var t := s[..k] + s[k + 1..];
    assert forall i :: 0 <= i < |t| ==> t[i] == if i < k then s[i] else s[i + 1];
    forall i | 0 <= i < |t|
      ensures LinkedBack(t, i)
    {
      if i < k { assert LinkedBack(s, i); } else if i > k { assert LinkedBack(s, i + 1); }
    }
    forall i | 0 <= i < |t|
      ensures LinkedOn(t, i)
    {
      if i + 1 < k { assert LinkedOn(s, i); } else if i >= k { assert LinkedOn(s, i + 1); }
    }
  }

  /** A list none of whose links were written is linked as before. */
  twostate lemma StillLinked(s: seq<Query>)
    requires old(Linked(s))
    requires forall i :: 0 <= i < |s| ==> s[i].prev == old(s[i].prev) && s[i].next == old(s[i].next)
    ensures Linked(s)
  {
    forall i | 0 <= i < |s|
      ensures LinkedBack(s, i) && LinkedOn(s, i)
    {
      assert old(LinkedBack(s, i) && LinkedOn(s, i));
    }
  }

  class QueryList {
    var head: Query?
    var tail: Query?
    ghost var nodes: seq<Query>

    ghost predicate Valid()
      reads this, nodes`prev, nodes`next
    {
      && Distinct(nodes)
      && Linked(nodes)
      && head == (if nodes == [] then null else nodes[0])
      && tail == (if nodes == [] then null else nodes[|nodes| - 1])
    }

    constructor ()
      ensures Valid() && nodes == []
    {
      head, tail := null, null;
      nodes := [];
    }

    /** The queries on this list say so. */
    ghost predicate Owned()
      reads this, nodes`list
    {
      forall i :: 0 <= i < |nodes| ==> nodes[i].list == this
    }

    /** perf_list_append */
    method Append(q: Query)
      requires Valid() && q !in nodes
      modifies this, q`prev, q`next, nodes`prev, nodes`next
      ensures Valid() && nodes == old(nodes) + [q]
    {
      if tail != null { tail.next := q; } else { head := q; }
      q.prev := tail;
      q.next := null;
      tail := q;
      nodes := nodes + [q];
      forall i | 0 <= i < |nodes| - 1
        ensures LinkedBack(nodes, i) && (i + 2 < |nodes| ==> LinkedOn(nodes, i))
      {
        assert old(LinkedBack(nodes, i) && LinkedOn(nodes, i));
      }
    }

    /** perf_list_prepend */
    method Prepend(q: Query)
      requires Valid() && q !in nodes
      modifies this, q`prev, q`next, nodes`prev, nodes`next
      ensures Valid() && nodes == [q] + old(nodes)
    {
      if head != null { head.prev := q; } else { tail := q; }
      q.prev := null;
      q.next := head;
      head := q;
      nodes := [q] + nodes;
      forall i | 1 <= i < |nodes|
        ensures LinkedOn(nodes, i) && (i > 1 ==> LinkedBack(nodes, i))
      {
        assert old(LinkedBack(nodes, i - 1) && LinkedOn(nodes, i - 1));
      }
    }

    /** perf_list_unlink, whose assertions all hold. */
    method Unlink(q: Query)
      requires Valid() && q in nodes
      modifies this, nodes`prev, nodes`next
      ensures Valid() && nodes == Without(old(nodes), q)
      ensures forall i :: 0 <= i < |nodes| ==> nodes[i] in old(nodes)
      ensures q.prev == null && q.next == null
    {
      ghost var k := TakenFrom(nodes, q);
      ghost var t := Without(nodes, q);
      BypassLinked(q, k, t);
      nodes := t;
      assert head != q;
      assert tail != q;
    }

    method BypassLinked(q: Query, ghost k: nat, ghost t: seq<Query>)
      requires Valid() && k < |nodes| && nodes[k] == q && t == nodes[..k] + nodes[k + 1..]
      modifies this`head, this`tail, nodes`prev, nodes`next
      ensures q.prev == null && q.next == null
      ensures Linked(t)
      ensures head == if k > 0 then nodes[0] else if |nodes| == 1 then null else nodes[1]
      ensures tail == if k < |nodes| - 1 then nodes[|nodes| - 1] else if k == 0 then null else nodes[k - 1]
    {
      Bypass(q, k);
      Bypassed(nodes, k);
    }

    /** Both neighbours, or the ends of the list, skip node k. */
    method Bypass(q: Query, ghost k: nat)
      requires Valid() && k < |nodes| && nodes[k] == q
      modifies this`head, this`tail, nodes`prev, nodes`next
      ensures q.prev == null && q.next == null
      ensures forall i :: 0 <= i < |nodes| && i != k && i != k + 1 ==> LinkedBack(nodes, i)
      ensures forall i :: 0 <= i < |nodes| && i != k && i + 1 != k ==> LinkedOn(nodes, i)
      ensures k + 1 < |nodes| ==> nodes[k + 1].prev == if k == 0 then null else nodes[k - 1]
      ensures k > 0 ==> nodes[k - 1].next == if k == |nodes| - 1 then null else nodes[k + 1]
      ensures head == if k > 0 then nodes[0] else if |nodes| == 1 then null else nodes[1]
      ensures tail == if k < |nodes| - 1 then nodes[|nodes| - 1] else if k == 0 then null else nodes[k - 1]
    {
      assert LinkedBack(nodes, k) && LinkedOn(nodes, k);
      if q.next != null {
        q.next.prev := q.prev;
      } else {
        assert tail == q;
        tail := q.prev;
      }
      if q.prev != null {
        q.prev.next := q.next;
      } else {
        assert head == q;
        head := q.next;
      }
      q.next := null;
      q.prev := null;
      forall i | 0 <= i < |nodes| && i != k && i != k + 1
        ensures LinkedBack(nodes, i)
      {
        assert old(LinkedBack(nodes, i));
      }
      forall i | 0 <= i < |nodes| && i != k && i + 1 != k
        ensures LinkedOn(nodes, i)
      {
        assert old(LinkedOn(nodes, i));
      }
    }
  }

  /** The queries of one thread and the two lists over them. */
  class ThreadQueries {
    const unused: QueryList
    const outstanding: QueryList
    var queries: seq<Query>     // the array that the queries live in
    ghost var pool: set<Query>

    ghost function State(): Pair<Query>
      reads this, unused, outstanding
    {
      Pair(unused.nodes, outstanding.nodes)
    }

    ghost predicate Valid()
      reads this, unused, outstanding, pool, unused.nodes, outstanding.nodes
    {
      && unused != outstanding
      && unused.Valid() && outstanding.Valid()
      && Partition(State(), pool)
      && unused.Owned() && outstanding.Owned()
    }

    /** threadinfo_init: all the queries go on the unused list, in order. */
    constructor (n: nat)
      ensures Valid() && |queries| == n && unused.nodes == queries && outstanding.nodes == []
      ensures fresh(unused) && fresh(outstanding) && fresh(pool)
    {
      unused := new QueryList();
      outstanding := new QueryList();
      queries, pool := [], {};
      new;
      var i := 0;
      while i < n
        invariant 0 <= i <= n && AllUnused() && |queries| == i
        invariant fresh(unused) && fresh(outstanding) && fresh(pool) && fresh(queries)
      {
        var q := new Query();
        AddUnused(q);
        i := i + 1;
      }
    }

    ghost predicate AllUnused()
      reads this, unused, outstanding, pool, unused.nodes, outstanding.nodes
    {
      Valid() && unused.nodes == queries && outstanding.nodes == []
    }

    method AddUnused(q: Query)
      requires AllUnused() && q !in pool
      modifies this`pool, this`queries, unused, q, queries`prev, queries`next
      ensures AllUnused() && queries == old(queries) + [q] && pool == old(pool) + {q}
    {
      PartitionWith(unused.nodes, q, pool);
      unused.Append(q);
      q.list := unused;
      queries, pool := queries + [q], pool + {q};
    }

    /** query_move: it refines Move, and q->list names the list that q is on. */
    method QueryMove(q: Query, op: MoveOp)
      requires Valid() && q in pool
      modifies unused, outstanding, pool
      ensures Valid() && State() == Move(old(State()), q, op)
      ensures q.list == if op == PrependOutstanding then outstanding else unused
    {
      ghost var before := State();
      PartitionMembers(before, pool);
      OnOneList(before, q, pool);
      Detach(q);
      Attach(q, op);
      assert State() == Move(before, q, op);
      MoveKeepsPartition(before, q, op, pool);
    }

    /** The unlink from whichever list q->list names. */
    method Detach(q: Query)
      requires Valid() && q in pool
      requires forall x :: x in unused.nodes ==> x in pool
      requires forall x :: x in outstanding.nodes ==> x in pool
      requires Apart(unused.nodes, outstanding.nodes)
      requires q in unused.nodes ==> Without(outstanding.nodes, q) == outstanding.nodes
      requires q !in unused.nodes ==> q in outstanding.nodes && Without(unused.nodes, q) == unused.nodes
      modifies unused, outstanding, pool`prev, pool`next
      ensures unused.Valid() && outstanding.Valid() && unused.Owned() && outstanding.Owned()
      ensures unused.nodes == Without(old(unused.nodes), q) && outstanding.nodes == Without(old(outstanding.nodes), q)
    {
      if q.list == unused {
        TakeOff(unused, outstanding, q);
      } else {
        TakeOff(outstanding, unused, q);
      }
    }

    static method TakeOff(l: QueryList, other: QueryList, q: Query)
      requires l != other && l.Valid() && other.Valid() && l.Owned() && other.Owned()
      requires q in l.nodes && Apart(l.nodes, other.nodes)
      modifies l, l.nodes`prev, l.nodes`next
      ensures l.Valid() && other.Valid() && l.Owned() && other.Owned()
      ensures l.nodes == Without(old(l.nodes), q) && other.nodes == old(other.nodes)
    {
      l.Unlink(q);
      StillLinked(other.nodes);
    }

    /** The rest of query_move. */
    method Attach(q: Query, op: MoveOp)
      requires unused != outstanding && unused.Valid() && outstanding.Valid() && unused.Owned() && outstanding.Owned()
      requires q !in unused.nodes && q !in outstanding.nodes
      requires Apart(unused.nodes, outstanding.nodes)
      modifies unused, outstanding, q, unused.nodes`prev, unused.nodes`next, outstanding.nodes`prev, outstanding.nodes`next
      ensures unused.Valid() && outstanding.Valid() && unused.Owned() && outstanding.Owned()
      ensures q.list == if op == PrependOutstanding then outstanding else unused
      ensures match op
              case PrependUnused => unused.nodes == [q] + old(unused.nodes) && outstanding.nodes == old(outstanding.nodes)
              case AppendUnused => unused.nodes == old(unused.nodes) + [q] && outstanding.nodes == old(outstanding.nodes)
              case PrependOutstanding => unused.nodes == old(unused.nodes) && outstanding.nodes == [q] + old(outstanding.nodes)
    {
      match op {
        case PrependUnused =>
          q.list := unused;
          unused.Prepend(q);
          StillLinked(outstanding.nodes);
        case AppendUnused =>
          q.list := unused;
          unused.Append(q);
          StillLinked(outstanding.nodes);
        case PrependOutstanding =>
          q.list := outstanding;
          outstanding.Prepend(q);
          StillLinked(unused.nodes);
      }
    }
  }
}
