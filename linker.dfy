/** The fact-linking loop (sus.py:140-148) and the script as a whole
    (sus.py:132-148): dictionaries of users and products are built, the
    sales are aggregated, and every group whose member and product are both
    known becomes one fact, in the order the groups were first seen. */
module Linker {
  import opened Base
  import opened Tables
  import opened Builders
  import opened Grouping
  import opened Sales

  /** The fact a group contributes, or None when its member id or its
      product id has no record (sus.py:143-144). The foreign keys are the
      group's time key and the keys of the looked-up product and user; the
      measures are the first row's price and the group's quantity. */
  function LinkGroup(g: SaleGroup, users: map<string, Entry<UserAttrs>>, products: map<string, Entry<ProductAttrs>>): (r: Option<Fact>)
    ensures r.Some? <==> g.row.memberId in users && g.row.productId in products
    ensures r.Some? ==> && r.value.fkTime == g.record.key
                        && r.value.fkProduct == products[g.row.productId].key
                        && r.value.fkUser == users[g.row.memberId].key
                        && r.value.price == g.row.price
                        && r.value.quantity == g.quantity
  {
    if g.row.memberId !in users || g.row.productId !in products then None
    else Some(Fact(g.record.key, products[g.row.productId].key, users[g.row.memberId].key, g.row.price, g.quantity))
  }

  /** The facts the loop inserts for the groups listed in `order`, in order.
      A key with no group contributes nothing; the aggregation lists only
      keys it has groups for (Grouping.GroupKeys). */
  function Linked(order: seq<string>, groups: map<string, SaleGroup>,
                  users: map<string, Entry<UserAttrs>>, products: map<string, Entry<ProductAttrs>>): (facts: seq<Fact>)
    ensures |facts| <= |order|
    decreases |order|
  {
    if |order| == 0 then []
    else
      var rest := Linked(order[..|order| - 1], groups, users, products);
      var key := order[|order| - 1];
      if key !in groups then rest
      else
        match LinkGroup(groups[key], users, products)
        case None => rest
        case Some(f) => rest + [f]
  }

  /** A fact is inserted exactly when some listed group links to it. */
  lemma {:induction false} LinkedFacts(order: seq<string>, groups: map<string, SaleGroup>,
                                       users: map<string, Entry<UserAttrs>>, products: map<string, Entry<ProductAttrs>>, f: Fact)
    requires forall i :: 0 <= i < |order| ==> order[i] in groups
    ensures f in Linked(order, groups, users, products) <==>
              exists j :: 0 <= j < |order| && LinkGroup(groups[order[j]], users, products) == Some(f)
    decreases |order|
  {
    if |order| > 0 {
      var n := |order| - 1;
      var init := order[..n];
      LinkedFacts(init, groups, users, products, f);
      if exists j :: 0 <= j < |order| && LinkGroup(groups[order[j]], users, products) == Some(f) {
        var j :| 0 <= j < |order| && LinkGroup(groups[order[j]], users, products) == Some(f);
        if j < n {
          assert init[j] == order[j];
        }
      }
      if exists j :: 0 <= j < n && LinkGroup(groups[init[j]], users, products) == Some(f) {
        var j :| 0 <= j < n && LinkGroup(groups[init[j]], users, products) == Some(f);
        assert init[j] == order[j];
      }
    }
  }

  /** When every listed group has a known member and product, each group
      gives exactly one fact and the facts follow the groups' order. */
  lemma {:induction false} LinkedAll(order: seq<string>, groups: map<string, SaleGroup>,
                                     users: map<string, Entry<UserAttrs>>, products: map<string, Entry<ProductAttrs>>)
    requires forall i :: 0 <= i < |order| ==> order[i] in groups
    requires forall i :: 0 <= i < |order| ==> groups[order[i]].row.memberId in users && groups[order[i]].row.productId in products
    ensures var facts := Linked(order, groups, users, products);
            && |facts| == |order|
            && forall j :: 0 <= j < |order| ==> Some(facts[j]) == LinkGroup(groups[order[j]], users, products)
    decreases |order|
  {
    if |order| > 0 {
      var n := |order| - 1;
      var init := order[..n];
      LinkedAll(init, groups, users, products);
      var rest := Linked(init, groups, users, products);
      var f := LinkGroup(groups[order[n]], users, products).value;
      assert Linked(order, groups, users, products) == rest + [f];
      forall j | 0 <= j < |order|
        ensures Some((rest + [f])[j]) == LinkGroup(groups[order[j]], users, products)
      {
        if j < n {
          assert init[j] == order[j];
        }
      }
    }
  }

  /** A group whose member or product is unknown adds nothing. */
  lemma LinkedSkips(order: seq<string>, key: string, groups: map<string, SaleGroup>,
                    users: map<string, Entry<UserAttrs>>, products: map<string, Entry<ProductAttrs>>)
    requires forall i :: 0 <= i < |order| ==> order[i] in groups
    requires key in groups
    requires groups[key].row.memberId !in users || groups[key].row.productId !in products
    ensures Linked(order + [key], groups, users, products) == Linked(order, groups, users, products)
  {
    assert (order + [key])[..|order|] == order;
  }

  /** The linking loop (sus.py:140-148): for each group in the dictionary's
      order, skip it or insert its fact. */
  method Link(table: FactTable, d: SalesDict, users: map<string, Entry<UserAttrs>>, products: map<string, Entry<ProductAttrs>>)
    requires forall i :: 0 <= i < |d.order| ==> d.order[i] in d.groups
    modifies table
    ensures table.facts == old(table.facts) + Linked(d.order, d.groups, users, products)
  {
    var i := 0;
    while i < |d.order|
      invariant 0 <= i <= |d.order|
      invariant table.facts == old(table.facts) + Linked(d.order[..i], d.groups, users, products)
    {
      var sale := d.groups[d.order[i]];
      assert d.order[..i + 1][..i] == d.order[..i];
      var fact := LinkGroup(sale, users, products);
      if fact.None? {
        i := i + 1;
        continue;
      }
      table.Insert(fact.value);
      i := i + 1;
    }
    assert d.order[..i] == d.order;
  }

  // ---------------------------------------------------------------- the whole script

  /** What the script leaves behind: the three dimensions and the fact table. */
  datatype Warehouse = Warehouse(userDim: DimState<UserAttrs>, productDim: DimState<ProductAttrs>,
                                 timeDim: DimState<TimeAttrs>, facts: seq<Fact>)

  /** The user and product dictionaries with their dimensions, built from
      empty tables (sus.py:132-136), or the first error: members are read
      before products. */
  function Dimensions(members: seq<MemberRow>, products: seq<ProductRow>)
    : Result<(DimState<UserAttrs>, map<string, Entry<UserAttrs>>, DimState<ProductAttrs>, map<string, Entry<ProductAttrs>>)>
  {
    match Build(EmptyDim(), members, MemberId, UserAttrsOf)
    case Err(e) => Err(e)
    case Ok((us, users)) =>
      match Build(EmptyDim(), products, ProductId, ProductAttrsOf)
      case Err(e) => Err(e)
      case Ok((ps, prods)) => Ok((us, users, ps, prods))
  }

  /** The script from empty tables (sus.py:132-148), or the first error:
      the dimensions first, then the sales. */
  function Pipeline(members: seq<MemberRow>, products: seq<ProductRow>, sales: seq<SaleRow>): Result<Warehouse> {
    match Dimensions(members, products)
    case Err(e) => Err(e)
    case Ok((us, users, ps, prods)) =>
      match Aggregate(EmptyDim(), sales)
      case Err(e) => Err(e)
      case Ok((ts, d)) => Ok(Warehouse(us, ps, ts, Linked(d.order, d.groups, users, prods)))
  }

  /** Each linked fact's foreign keys lie in the key ranges of dimensions
      that hold every looked-up entry under its key. */
  lemma LinkedInRange(order: seq<string>, groups: map<string, SaleGroup>,
                      users: map<string, Entry<UserAttrs>>, products: map<string, Entry<ProductAttrs>>,
                      us: DimState<UserAttrs>, ps: DimState<ProductAttrs>, ts: DimState<TimeAttrs>, f: Fact)
    requires WellFormed(us) && WellFormed(ps) && WellFormed(ts)
    requires forall id :: id in users ==> users[id].attrs in us.keys && us.keys[users[id].attrs] == users[id].key
    requires forall id :: id in products ==> products[id].attrs in ps.keys && ps.keys[products[id].attrs] == products[id].key
    requires forall i :: 0 <= i < |order| ==> order[i] in groups
    requires forall k :: k in groups ==> groups[k].record.attrs in ts.keys && ts.keys[groups[k].record.attrs] == groups[k].record.key
    requires f in Linked(order, groups, users, products)
    ensures 1 <= f.fkUser <= |us.rows| && 1 <= f.fkProduct <= |ps.rows| && 1 <= f.fkTime <= |ts.rows|
  {
    LinkedFacts(order, groups, users, products, f);
    var j :| 0 <= j < |order| && LinkGroup(groups[order[j]], users, products) == Some(f);
    var g := groups[order[j]];
    assert users[g.row.memberId].attrs in us.keys;
    assert products[g.row.productId].attrs in ps.keys;
    assert g.record.attrs in ts.keys;
  }

  /** Every foreign key of every fact names an existing row of its
      dimension, and the dimensions are consistent. */
  lemma PipelineIntegrity(members: seq<MemberRow>, products: seq<ProductRow>, sales: seq<SaleRow>)
    requires Pipeline(members, products, sales).Ok?
    ensures var w := Pipeline(members, products, sales).value;
            && WellFormed(w.userDim) && WellFormed(w.productDim) && WellFormed(w.timeDim)
            && forall f :: f in w.facts ==>
                 && 1 <= f.fkUser <= |w.userDim.rows|
                 && 1 <= f.fkProduct <= |w.productDim.rows|
                 && 1 <= f.fkTime <= |w.timeDim.rows|
  {
    var (us, users) := Build(EmptyDim(), members, MemberId, UserAttrsOf).value;
    var (ps, prods) := Build(EmptyDim(), products, ProductId, ProductAttrsOf).value;
    var (ts, d) := Aggregate(EmptyDim(), sales).value;
    BuildEntriesKeyed(EmptyDim(), members, MemberId, UserAttrsOf);
    BuildEntriesKeyed(EmptyDim(), products, ProductId, ProductAttrsOf);
    AggregateTime(EmptyDim(), sales);
    assert Pipeline(members, products, sales).value == Warehouse(us, ps, ts, Linked(d.order, d.groups, users, prods));
    forall f | f in Linked(d.order, d.groups, users, prods)
      ensures 1 <= f.fkUser <= |us.rows| && 1 <= f.fkProduct <= |ps.rows| && 1 <= f.fkTime <= |ts.rows|
    {
      LinkedInRange(d.order, d.groups, users, prods, us, ps, ts, f);
    }
  }

  /** CreateUserDim then CreateProductDim on fresh dimensions. */
  method LoadDimensions(members: seq<MemberRow>, products: seq<ProductRow>)
    returns (r: Result<(DimState<UserAttrs>, map<string, Entry<UserAttrs>>, DimState<ProductAttrs>, map<string, Entry<ProductAttrs>>)>)
    ensures r == Dimensions(members, products)
  {
    var userDim := new Dimension<UserAttrs>();
    var productDim := new Dimension<ProductAttrs>();
    var users := CreateUserDim(userDim, members);
    if users.Err? {
      return Err(users.error);
    }
    var prods := CreateProductDim(productDim, products);
    if prods.Err? {
      return Err(prods.error);
    }
    r := Ok((userDim.State(), users.value, productDim.State(), prods.value));
  }

  /** The script run on fresh tables. */
  method Run(members: seq<MemberRow>, products: seq<ProductRow>, sales: seq<SaleRow>) returns (r: Result<Warehouse>)
    ensures r == Pipeline(members, products, sales)
  {
    var dims := LoadDimensions(members, products);
    if dims.Err? {
      return Err(dims.error);
    }
    var (us, users, ps, prods) := dims.value;
    var timeDim := new Dimension<TimeAttrs>();
    var saleFact := new FactTable();
    var d := CreateSalesForTime(timeDim, sales);
    if d.Err? {
      return Err(d.error);
    }
    assert forall i :: 0 <= i < |d.value.order| ==> d.value.order[i] in d.value.groups by {
      GroupKeys(EmptyDim(), sales, SaleKey, FirstTime);
    }
    Link(saleFact, d.value, users, prods);
    assert saleFact.facts == Linked(d.value.order, d.value.groups, users, prods);
    r := Ok(Warehouse(us, ps, timeDim.State(), saleFact.facts));
  }
}
