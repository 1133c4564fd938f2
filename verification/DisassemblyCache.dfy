/** The disassembly cache: a circular list of parser contexts behind a direct-mapped table.

`Lookup` is the cache without objects: a context is its place in the list.  Addresses are looked up by the low bits
of their offset; a miss recycles the oldest context, whatever the table still says about it.
 */
module DisassemblyCaching {
  import opened Arithmetic
  import opened Common

  datatype Address = Address(space: nat, offset: nat)

  /** `addrs[k]` is the address context `k` was last set to, `table[h]` the context at table place `h`. */
  datatype Cache = Cache(addrs: seq<Option<Address>>, next: nat, table: seq<nat>)

  predicate WellFormed(c: Cache) {
    && 0 < |c.addrs| && c.next < |c.addrs| && 0 < |c.table|
    && forall h :: 0 <= h < |c.table| ==> c.table[h] < |c.addrs|
  }

  function Hash(c: Cache, a: Address): (h: nat)
    requires WellFormed(c)
    ensures h < |c.table|
  {
    a.offset % |c.table|
  }

  /** The context the table offers for an address, right or wrong. */
  function Offered(c: Cache, a: Address): (k: nat)
    requires WellFormed(c)
    ensures k < |c.addrs|
  {
    c.table[Hash(c, a)]
  }

  predicate Hits(c: Cache, a: Address)
    requires WellFormed(c)
  {
    c.addrs[Offered(c, a)] == Some(a)
  }

  function Lookup(c: Cache, a: Address): (r: (nat, Cache))
    requires WellFormed(c)
    ensures WellFormed(r.1) && r.0 < |c.addrs| == |r.1.addrs| && |r.1.table| == |c.table|
  {
    if Hits(c, a) then (Offered(c, a), c)
    else (c.next, Cache(c.addrs[c.next := Some(a)], if c.next + 1 >= |c.addrs| then 0 else c.next + 1,
                        c.table[Hash(c, a) := c.next]))
  }

  function LookupAll(c: Cache, addrs: seq<Address>): (r: (seq<nat>, Cache))
    requires WellFormed(c)
    ensures WellFormed(r.1) && |r.0| == |addrs| && |r.1.addrs| == |c.addrs| && |r.1.table| == |c.table|
    decreases |addrs|
  {
    if addrs == [] then ([], c)
    else
      var (k, c') := Lookup(c, addrs[0]);
      var (ks, c'') := LookupAll(c', addrs[1..]);
      ([k] + ks, c'')
  }

  /** How many of the lookups recycle a context. */
  function Misses(c: Cache, addrs: seq<Address>): (n: nat)
    requires WellFormed(c)
    ensures n <= |addrs|
    decreases |addrs|
  {
    if addrs == [] then 0
    else (if Hits(c, addrs[0]) then 0 else 1) + Misses(Lookup(c, addrs[0]).1, addrs[1..])
  }

  /** How many misses context `k` survives. */
  function Distance(c: Cache, k: nat): nat
    requires WellFormed(c) && k < |c.addrs|
  {
    if k >= c.next then k - c.next else k + |c.addrs| - c.next
  }

  predicate DistinctHashes(c: Cache, addrs: seq<Address>)
    requires WellFormed(c)
  {
    forall i, j :: 0 <= i < j < |addrs| ==> Hash(c, addrs[i]) != Hash(c, addrs[j])
  }

  /** Different addresses of one space within one table size of each other. */
  predicate InOneWindow(c: Cache, addrs: seq<Address>) {
    forall i, j :: 0 <= i < j < |addrs| ==>
      && addrs[i] != addrs[j] && addrs[i].space == addrs[j].space
      && addrs[i].offset < addrs[j].offset + |c.table| && addrs[j].offset < addrs[i].offset + |c.table|
  }

  lemma WindowHashes(c: Cache, addrs: seq<Address>)
    requires WellFormed(c) && InOneWindow(c, addrs)
    ensures DistinctHashes(c, addrs)
  {
    forall i, j | 0 <= i < j < |addrs|
      ensures Hash(c, addrs[i]) != Hash(c, addrs[j])
    {
      if addrs[i].offset < addrs[j].offset {
        NearbyRemainders(addrs[i].offset, addrs[j].offset, |c.table|);
      } else {
        assert addrs[i].offset != addrs[j].offset;
        NearbyRemainders(addrs[j].offset, addrs[i].offset, |c.table|);
      }
    }
  }

  /** A context at least as far from the recycling pointer as there are misses to come is neither recycled nor handed
      out for another address. */
  lemma {:induction false} Survives(c: Cache, addrs: seq<Address>, k: nat, a: Address)
    requires WellFormed(c) && k < |c.addrs| && c.addrs[k] == Some(a) && a !in addrs
    requires Distance(c, k) >= Misses(c, addrs)
    ensures k !in LookupAll(c, addrs).0 && LookupAll(c, addrs).1.addrs[k] == Some(a)
    decreases |addrs|
  {
    if addrs != [] {
      Survives(Lookup(c, addrs[0]).1, addrs[1..], k, a);
    }
  }

  /** A context nearer than that is handed out again by a miss. */
  lemma {:induction false} Recycled(c: Cache, addrs: seq<Address>, k: nat)
    requires WellFormed(c) && k < |c.addrs| && Distance(c, k) < Misses(c, addrs)
    ensures k in LookupAll(c, addrs).0
    decreases |addrs|
  {
    if !Hits(c, addrs[0]) && k == c.next {
      assert LookupAll(c, addrs).0[0] == k;
    } else {
      Recycled(Lookup(c, addrs[0]).1, addrs[1..], k);
      var i :| 0 <= i < |addrs| - 1 && LookupAll(Lookup(c, addrs[0]).1, addrs[1..]).0[i] == k;
      assert LookupAll(c, addrs).0[i + 1] == k;
    }
  }

  /** Other lookups leave a table place alone. */
  lemma {:induction false} PlaceKept(c: Cache, addrs: seq<Address>, h: nat)
    requires WellFormed(c) && h < |c.table| && forall i :: 0 <= i < |addrs| ==> Hash(c, addrs[i]) != h
    ensures LookupAll(c, addrs).1.table[h] == c.table[h]
    decreases |addrs|
  {
    if addrs != [] {
      assert forall i :: 0 <= i < |addrs| - 1 ==> addrs[1..][i] == addrs[i + 1];
      PlaceKept(Lookup(c, addrs[0]).1, addrs[1..], h);
    }
  }

  /** No context handed out by a hit is nearer to the recycling pointer than the misses that follow. */
  predicate HitsSafe(c: Cache, addrs: seq<Address>)
    requires WellFormed(c)
    decreases |addrs|
  {
    addrs == [] ||
    (var c' := Lookup(c, addrs[0]).1;
     && (Hits(c, addrs[0]) ==> Distance(c, Offered(c, addrs[0])) >= Misses(c', addrs[1..]))
     && HitsSafe(c', addrs[1..]))
  }

  lemma DistinctCons<T>(x: T, s: seq<T>)
    ensures Distinct([x] + s) <==> x !in s && Distinct(s)
  {
    var t := [x] + s;
    if Distinct(t) {
      forall i | 0 <= i < |s|
        ensures s[i] != x
      {
        assert t[0] != t[i + 1];
      }
      forall i, j | 0 <= i < j < |s|
        ensures s[i] != s[j]
      {
        assert t[i + 1] != t[j + 1];
      }
    }
    if x !in s && Distinct(s) {
      forall i, j | 0 <= i < j < |t|
        ensures t[i] != t[j]
      {
        assert t[j] == s[j - 1];
      }
    }
  }

  /** The first context is handed out again exactly when it is nearer to the pointer than the misses that follow. */
  lemma FirstReused(c: Cache, addrs: seq<Address>)
    requires WellFormed(c) && 0 < |addrs| <= |c.addrs| && addrs[0] !in addrs[1..]
    ensures var (k, c') := Lookup(c, addrs[0]);
            k !in LookupAll(c', addrs[1..]).0 <==>
            (Hits(c, addrs[0]) ==> Distance(c, k) >= Misses(c', addrs[1..]))
  {
    var (k, c') := Lookup(c, addrs[0]);
    assert c'.addrs[k] == Some(addrs[0]);
    if Distance(c', k) >= Misses(c', addrs[1..]) {
      Survives(c', addrs[1..], k, addrs[0]);
    } else {
      Recycled(c', addrs[1..], k);
    }
  }

  /** Up to `minimumreuse` lookups of distinct addresses give distinct contexts if, and only if, every hit is safe. */
  lemma {:induction false} DistinctExactlyWhenSafe(c: Cache, addrs: seq<Address>)
    requires WellFormed(c) && |addrs| <= |c.addrs| && Distinct(addrs)
    ensures Distinct(LookupAll(c, addrs).0) <==> HitsSafe(c, addrs)
    decreases |addrs|
  {
    if addrs != [] {
      var (k, c') := Lookup(c, addrs[0]);
      assert addrs == [addrs[0]] + addrs[1..];
      DistinctCons(addrs[0], addrs[1..]);
      DistinctExactlyWhenSafe(c', addrs[1..]);
      FirstReused(c, addrs);
      DistinctCons(k, LookupAll(c', addrs[1..]).0);
    }
  }

  predicate AllMiss(c: Cache, addrs: seq<Address>)
    requires WellFormed(c)
    decreases |addrs|
  {
    addrs == [] || (!Hits(c, addrs[0]) && AllMiss(Lookup(c, addrs[0]).1, addrs[1..]))
  }

  lemma {:induction false} AllMissSafe(c: Cache, addrs: seq<Address>)
    requires WellFormed(c) && AllMiss(c, addrs)
    ensures HitsSafe(c, addrs)
    decreases |addrs|
  {
    if addrs != [] {
      AllMissSafe(Lookup(c, addrs[0]).1, addrs[1..]);
    }
  }

  lemma {:induction false} SafeAllCached(c: Cache, addrs: seq<Address>, i: nat)
    requires WellFormed(c) && |addrs| <= |c.addrs| && DistinctHashes(c, addrs) && HitsSafe(c, addrs) && i < |addrs|
    ensures var (ks, t) := LookupAll(c, addrs); Hits(t, addrs[i]) && Offered(t, addrs[i]) == ks[i]
    decreases |addrs|
  {
    var (k, c') := Lookup(c, addrs[0]);
    assert forall j :: 0 <= j < |addrs| - 1 ==> addrs[1..][j] == addrs[j + 1];
    if i > 0 {
      SafeAllCached(c', addrs[1..], i - 1);
    } else {
      assert forall j :: 1 <= j < |addrs| ==> Hash(c, addrs[0]) != Hash(c, addrs[j]);
      Survives(c', addrs[1..], k, addrs[0]);
      PlaceKept(c', addrs[1..], Hash(c, addrs[0]));
    }
  }

  /** The working set: after up to `minimumreuse` misses on different addresses of one window the contexts are pairwise
      distinct, and looking any of the addresses up again finds its context and changes nothing. */
  lemma WorkingSet(c: Cache, addrs: seq<Address>)
    requires WellFormed(c) && |addrs| <= |c.addrs| && InOneWindow(c, addrs) && AllMiss(c, addrs)
    ensures var (ks, t) := LookupAll(c, addrs);
            && Distinct(ks)
            && forall i :: 0 <= i < |addrs| ==> Lookup(t, addrs[i]) == (ks[i], t)
  {
    WindowHashes(c, addrs);
    AllMissSafe(c, addrs);
    DistinctExactlyWhenSafe(c, addrs);
    forall i | 0 <= i < |addrs|
      ensures Lookup(LookupAll(c, addrs).1, addrs[i]) == (LookupAll(c, addrs).0[i], LookupAll(c, addrs).1)
    {
      SafeAllCached(c, addrs, i);
    }
  }

  /** A new cache: every table place points to the first context, which has no address yet. */
  function NewCache(min: nat, hashsize: nat): (c: Cache)
    requires min > 0 && hashsize > 0
    ensures WellFormed(c)
  {
    Cache(seq(min, k => None), 0, seq(hashsize, h => 0))
  }

  /** The promise of the doc comment, without the word miss, does not hold: with two contexts and four table places,
      after addresses 0 and 1, the two different addresses 0 and 2 of one window share a context. */
  lemma HitThenMissCollide()
    ensures var c := LookupAll(NewCache(2, 4), [Address(0, 0), Address(0, 1)]).1;
            var addrs := [Address(0, 0), Address(0, 2)];
            InOneWindow(c, addrs) && |addrs| <= |c.addrs| && !Distinct(LookupAll(c, addrs).0)
  {
    var a0, a1, a2 := Address(0, 0), Address(0, 1), Address(0, 2);
    var n := NewCache(2, 4);
    var c1 := Lookup(n, a0).1;
    assert c1 == Cache([Some(a0), None], 1, [0, 0, 0, 0]);
    var c := Lookup(c1, a1).1;
    assert c == Cache([Some(a0), Some(a1)], 0, [0, 1, 0, 0]);
    TwoLookups(n, a0, a1);
    TwoLookups(c, a0, a2);
    assert Lookup(c, a0) == (0, c) && Lookup(c, a2).0 == 0;
  }

  lemma TwoLookups(c: Cache, a: Address, b: Address)
    requires WellFormed(c)
    ensures LookupAll(c, [a, b]) == ([Lookup(c, a).0, Lookup(Lookup(c, a).1, b).0], Lookup(Lookup(c, a).1, b).1)
  {
    var (k, c') := Lookup(c, a);
    OneLookup(c', b);
    assert [a, b][1..] == [b];
    assert LookupAll(c, [a, b]) == ([k] + LookupAll(c', [b]).0, LookupAll(c', [b]).1);
    assert [k] + [Lookup(c', b).0] == [k, Lookup(c', b).0];
  }

  lemma OneLookup(c: Cache, a: Address)
    requires WellFormed(c)
    ensures LookupAll(c, [a]) == ([Lookup(c, a).0], Lookup(c, a).1)
  {
    var (k, c') := Lookup(c, a);
    assert [a][1..] == [];
    assert LookupAll(c', []) == ([], c');
    assert [k] + [] == [k];
  }

  // ----- the cache itself -----

  class ParserContext {
    var addr: Option<Address>
    var parsed: bool

    constructor ()
      ensures addr == None && !parsed
    {
      addr, parsed := None, false;
    }
  }

  predicate PowerOfTwo(n: nat) {
    n == 1 || (n > 1 && n % 2 == 0 && PowerOfTwo(n / 2))
  }

  class DisassemblyCache {
    var list: seq<ParserContext>
    var nextfree: nat
    var hashtable: array<ParserContext>
    ghost var places: seq<nat>  // where in the list each table entry is

    ghost predicate Valid()
      reads this, hashtable
    {
      && 0 < |list| && nextfree < |list| && 0 < hashtable.Length == |places|
      && (forall i, j :: 0 <= i < j < |list| ==> list[i] != list[j])
      && (forall h :: 0 <= h < hashtable.Length ==> places[h] < |list| && hashtable[h] == list[places[h]])
    }

    ghost function Abs(): (c: Cache)
      requires Valid()
      reads this, hashtable, list
      ensures WellFormed(c)
    {
      Cache(seq(|list|, i requires 0 <= i < |list| reads this, list => list[i].addr), nextfree, places)
    }

    constructor (contexts: seq<ParserContext>, hashsize: nat)
      requires 0 < |contexts|
      requires forall i, j :: 0 <= i < j < |contexts| ==> contexts[i] != contexts[j]
      ensures fresh(hashtable) && hashtable.Length == hashsize && list == contexts && nextfree == 0
      ensures places == seq(hashsize, h => 0) && (hashsize > 0 ==> Valid())
    {
      list := contexts;
      nextfree := 0;
      hashtable := new ParserContext[hashsize](i => contexts[0]);
      places := seq(hashsize, h => 0);
    }

    /** `initialize`: throws, here returns None, unless the table size is a power of two, or 0, whose mask of all ones
        passes the test as well; then the table is empty and nothing can be looked up. */
    static method Initialize(min: nat, hashsize: nat) returns (r: Option<DisassemblyCache>)
      requires min > 0
      ensures r.Some? <==> hashsize == 0 || PowerOfTwo(hashsize)
      ensures r.Some? ==> fresh(r.value) && r.value.hashtable.Length == hashsize && |r.value.list| == min
      ensures r.Some? ==> (r.value.Valid() <==> hashsize > 0)
      ensures r.Some? && hashsize > 0 ==> r.value.Abs() == NewCache(min, hashsize)
    {
      if hashsize != 0 && !PowerOfTwo(hashsize) {
        return None;
      }
      var list: seq<ParserContext> := [];
      for i := 0 to min
        invariant |list| == i
        invariant forall k :: 0 <= k < i ==> fresh(list[k]) && list[k].addr == None
        invariant forall k, l :: 0 <= k < l < i ==> list[k] != list[l]
      {
        var pos := new ParserContext();
        list := list + [pos];
      }
      var cache := new DisassemblyCache(list, hashsize);
      r := Some(cache);
    }

    method GetParserContext(addr: Address) returns (res: ParserContext)
      requires Valid()
      modifies this, hashtable, list
      ensures Valid() && list == old(list) && hashtable == old(hashtable)
      ensures var (k, c) := Lookup(old(Abs()), addr); res == list[k] && Abs() == c
      ensures res.addr == Some(addr)
      ensures !Hits(old(Abs()), addr) ==> !res.parsed
      ensures forall k :: 0 <= k < |list| && (list[k] != res || Hits(old(Abs()), addr)) ==>
                list[k].parsed == old(list[k].parsed)
    {
      var hashindex := addr.offset % hashtable.Length;
      res := hashtable[hashindex];
      if res.addr == Some(addr) {
        return;
      }
      res := list[nextfree];
      ghost var slot := nextfree;
      nextfree := nextfree + 1;
      if nextfree >= |list| {
        nextfree := 0;
      }
      res.addr := Some(addr);
      res.parsed := false;
      hashtable[hashindex] := res;
      places := places[hashindex := slot];
      assert Abs().addrs == old(Abs()).addrs[slot := Some(addr)];
    }
  }
}
