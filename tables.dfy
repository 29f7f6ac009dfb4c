/** Stand-ins for the two table abstractions the script instantiates at
    sus.py:29-54: a cached dimension that hands out surrogate keys, and an
    append-only fact table. Their library code is not part of this model;
    only the behaviour the script relies on is. */
module Tables {

  /** A dimension row as the script keeps it in its dictionaries: the
      attribute values together with the surrogate key `ensure` returned. */
  datatype Entry<A> = Entry(attrs: A, key: nat)

  /** The abstract state of a cached dimension.
      keys     -- the cache: attribute tuple to surrogate key
      rows     -- the rows stored, in insertion order; the row at index i has key i + 1
      nextKey  -- the key the next new row receives
      requests -- every attribute tuple `ensure` was asked for, in call order
                  (bookkeeping of the stand-in, used to count calls) */
  datatype DimState<A> = DimState(keys: map<A, nat>, rows: seq<A>, nextKey: nat, requests: seq<A>)

  function EmptyDim<A>(): DimState<A> { DimState(map[], [], 1, []) }

  /** The cache and the stored rows agree, and keys are handed out one by one. */
  predicate WellFormed<A>(s: DimState<A>) {
    && s.nextKey == |s.rows| + 1
    && (forall i :: 0 <= i < |s.rows| ==> s.rows[i] in s.keys && s.keys[s.rows[i]] == i + 1)
    && (forall a :: a in s.keys ==> 1 <= s.keys[a] <= |s.rows| && s.rows[s.keys[a] - 1] == a)
  }

  /** `ensure(row)`: the key cached for the attributes, or a new row with a fresh key. */
  function Ensured<A>(s: DimState<A>, a: A): (r: (DimState<A>, nat))
    ensures a in r.0.keys && r.0.keys[a] == r.1
    ensures r.0.requests == s.requests + [a]
    ensures forall b :: b in s.keys ==> b in r.0.keys && r.0.keys[b] == s.keys[b]
    ensures WellFormed(s) ==> WellFormed(r.0)
    ensures WellFormed(s) ==> (r.0.rows == s.rows <==> a in s.keys)
    ensures WellFormed(s) && a !in s.keys ==>
              r.0.rows == s.rows + [a] && forall b :: b in s.keys ==> s.keys[b] != r.1
  {
    if a in s.keys then (s.(requests := s.requests + [a]), s.keys[a])
    else (DimState(s.keys[a := s.nextKey], s.rows + [a], s.nextKey + 1, s.requests + [a]), s.nextKey)
  }

  /** What one `ensure` leaves behind for the record `e` it made: `e` has
      the key the cache then holds for its attributes, one request is logged,
      earlier keys are kept and consistency is preserved. */
  predicate EnsureStep<A>(s: DimState<A>, s': DimState<A>, e: Entry<A>) {
    && e.attrs in s'.keys && s'.keys[e.attrs] == e.key
    && s'.requests == s.requests + [e.attrs]
    && (forall a :: a in s.keys ==> a in s'.keys && s'.keys[a] == s.keys[a])
    && (WellFormed(s) ==> WellFormed(s'))
  }

  /** No attribute tuple is stored twice. */
  lemma RowsDistinct<A>(s: DimState<A>, i: nat, j: nat)
    requires WellFormed(s)
    requires i < j < |s.rows|
    ensures s.rows[i] != s.rows[j]
  {
    assert s.keys[s.rows[i]] == i + 1 && s.keys[s.rows[j]] == j + 1;
  }

  /** Calling ensure twice with the same attributes returns the same key
      and stores no second row. */
  lemma EnsureTwice<A>(s: DimState<A>, a: A)
    requires WellFormed(s)
    ensures var (s1, k1) := Ensured(s, a);
            var (s2, k2) := Ensured(s1, a);
            k2 == k1 && s2.rows == s1.rows && s2.keys == s1.keys
  {
  }

  /** On a known tuple ensure changes nothing but the request log. */
  lemma EnsureKnown<A>(s: DimState<A>, a: A)
    requires WellFormed(s) && a in s.keys
    ensures Ensured(s, a).1 == s.keys[a]
    ensures Ensured(s, a).0 == s.(requests := s.requests + [a])
  {
  }

  /** The mutable cached dimension (pygrametl's CachedDimension, reduced). */
  class Dimension<A(==)> {
    var keys: map<A, nat>
    var rows: seq<A>
    var nextKey: nat
    var requests: seq<A>

    function State(): DimState<A>
      reads this
    {
      DimState(keys, rows, nextKey, requests)
    }

    predicate Valid()
      reads this
    {
      WellFormed(State())
    }

    constructor ()
      ensures Valid() && State() == EmptyDim()
    {
      keys, rows, nextKey, requests := map[], [], 1, [];
    }

    /** Returns the existing key for known attributes; otherwise stores a
        row with the next key and returns that key. */
    method Ensure(a: A) returns (key: nat)
      requires Valid()
      modifies this
      ensures Valid()
      ensures (State(), key) == Ensured(old(State()), a)
    {
      ghost var s := State();
      requests := requests + [a];
      if a in keys {
        key := keys[a];
      } else {
        key := nextKey;
        keys := keys[a := key];
        rows := rows + [a];
        nextKey := nextKey + 1;
      }
      assert (State(), key) == Ensured(s, a);
    }
  }

  /** A row of sale_fact: the three foreign keys and the two measures. The
      price is the sale row's raw text, as the script never converts it. */
  datatype Fact = Fact(fkTime: nat, fkProduct: nat, fkUser: nat, price: string, quantity: nat)

  /** The fact table: `insert` appends unconditionally. */
  class FactTable {
    var facts: seq<Fact>

    constructor ()
      ensures facts == []
    {
      facts := [];
    }

    method Insert(f: Fact)
      modifies this
      ensures facts == old(facts) + [f]
    {
      facts := facts + [f];
    }
  }
}
