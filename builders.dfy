/** The user and product dimension builders (sus.py:67-98): convert each
    source row to its dimension attributes, ensure the attributes in the
    dimension, and remember the record under the row's raw `id` text. */
module Builders {
  import opened Base
  import opened Text
  import opened Tables

  /** A member.csv row; only the fields the script reads. */
  datatype MemberRow = MemberRow(id: string, gender: string, year: string)

  /** A product.csv row. `alcoholMl` is the already converted amount
      int(Decimal(alcohol_content_ml) * 1000). */
  datatype ProductRow = ProductRow(id: string, name: string, alcoholMl: int, price: string)

  /** user_dim's attributes (sus.py:45). */
  datatype UserAttrs = UserAttrs(memberId: int, gender: string, yearJoined: int)

  /** product_dim's attributes (sus.py:39). */
  datatype ProductAttrs = ProductAttrs(productName: string, alcoholMl: int, price: int)

  /** `int(s)`, raising on malformed text. */
  function Int(s: string): (r: Result<int>)
    ensures r.Ok? <==> ParseInt(s).Some?
    ensures r.Ok? ==> r.value == ParseInt(s).value
    ensures r.Err? ==> r.error == InvalidInt(s)
  {
    match ParseInt(s)
    case Some(n) => Ok(n)
    case None => Err(InvalidInt(s))
  }

  /** Gender code to name: exactly "M", "F" and "U" are recognised. */
  function ParseGender(code: string): (r: Result<string>)
    ensures r.Ok? <==> code == "M" || code == "F" || code == "U"
    ensures r.Ok? ==> r.value == "Male" || r.value == "Female" || r.value == "Unknown"
    ensures r.Err? ==> r.error == UnrecognizedGender(code)
  {
    if code == "M" then Ok("Male")
    else if code == "F" then Ok("Female")
    else if code == "U" then Ok("Unknown")
    else Err(UnrecognizedGender(code))
  }

  /** The code a name is decoded from. */
  function GenderCode(name: string): string {
    if name == "Male" then "M" else if name == "Female" then "F" else "U"
  }

  /** Decoding is one-to-one: the name determines the code it came from,
      and every name has a code. */
  lemma GenderRoundTrip(code: string, name: string)
    ensures ParseGender(code) == Ok(name) <==>
              (name == "Male" || name == "Female" || name == "Unknown") && code == GenderCode(name)
  {
  }

  /** The dimension attributes of a member row (sus.py:81-84); the fields are
      converted in the script's order, so the first bad one is reported. */
  function UserAttrsOf(m: MemberRow): (r: Result<UserAttrs>)
    ensures r.Ok? <==> ParseGender(m.gender).Ok? && ParseInt(m.year).Some? && ParseInt(m.id).Some?
    ensures r.Ok? ==> r.value == UserAttrs(ParseInt(m.id).value, ParseGender(m.gender).value, ParseInt(m.year).value)
    ensures ParseGender(m.gender).Err? ==> r == Err(UnrecognizedGender(m.gender))
  {
    match ParseGender(m.gender)
    case Err(e) => Err(e)
    case Ok(g) =>
      match Int(m.year)
      case Err(e) => Err(e)
      case Ok(y) =>
        match Int(m.id)
        case Err(e) => Err(e)
        case Ok(id) => Ok(UserAttrs(id, g, y))
  }

  /** The dimension attributes of a product row (sus.py:92-95). */
  function ProductAttrsOf(p: ProductRow): (r: Result<ProductAttrs>)
    ensures r.Ok? <==> ParseInt(p.price).Some?
    ensures r.Ok? ==> r.value == ProductAttrs(p.name, p.alcoholMl, ParseInt(p.price).value)
  {
    match Int(p.price)
    case Err(e) => Err(e)
    case Ok(price) => Ok(ProductAttrs(p.name, p.alcoholMl, price))
  }

  function MemberId(m: MemberRow): string { m.id }

  function ProductId(p: ProductRow): string { p.id }

  // ---------------------------------------------------------------- the builder loop as a function

  /** What the builder loop computes over `rows`, from dimension state `s`:
      the new dimension state and the dictionary from raw id to record, or
      the error of the first row that fails to convert. */
  function Build<R, A>(s: DimState<A>, rows: seq<R>, idOf: R -> string, convert: R -> Result<A>)
    : Result<(DimState<A>, map<string, Entry<A>>)>
    decreases |rows|
  {
    if |rows| == 0 then Ok((s, map[]))
    else
      match Build(s, rows[..|rows| - 1], idOf, convert)
      case Err(e) => Err(e)
      case Ok((s1, dict)) =>
        var row := rows[|rows| - 1];
        match convert(row)
        case Err(e) => Err(e)
        case Ok(a) =>
          var (s2, key) := Ensured(s1, a);
          Ok((s2, dict[idOf(row) := Entry(a, key)]))
  }

  /** Once a prefix fails, the whole run fails with that error. */
  lemma {:induction false} BuildErrSticky<R, A>(s: DimState<A>, rows: seq<R>, k: nat, idOf: R -> string, convert: R -> Result<A>)
    requires k <= |rows|
    requires Build(s, rows[..k], idOf, convert).Err?
    ensures Build(s, rows, idOf, convert) == Build(s, rows[..k], idOf, convert)
    decreases |rows| - k
  {
    if k < |rows| {
      assert rows[..k + 1][..k] == rows[..k];
      BuildErrSticky(s, rows, k + 1, idOf, convert);
    } else {
      assert rows[..k] == rows;
    }
  }

  /** The builder succeeds exactly when every row converts; when it fails,
      the error is that of the first row that does not. */
  lemma {:induction false} BuildOk<R, A>(s: DimState<A>, rows: seq<R>, idOf: R -> string, convert: R -> Result<A>)
    ensures Build(s, rows, idOf, convert).Ok? <==> forall i :: 0 <= i < |rows| ==> convert(rows[i]).Ok?
    ensures Build(s, rows, idOf, convert).Err? ==>
              exists i :: 0 <= i < |rows| && convert(rows[i]) == Err(Build(s, rows, idOf, convert).error) &&
                          forall j :: 0 <= j < i ==> convert(rows[j]).Ok?
    decreases |rows|
  {
    if |rows| > 0 {
      var n := |rows| - 1;
      var init := rows[..n];
      BuildOk(s, init, idOf, convert);
      assert forall i :: 0 <= i < n ==> init[i] == rows[i];
      if Build(s, init, idOf, convert).Err? {
        var i :| 0 <= i < n && convert(init[i]) == Err(Build(s, init, idOf, convert).error) &&
                 forall j :: 0 <= j < i ==> convert(init[j]).Ok?;
        assert convert(rows[i]).Err?;
      }
    }
  }

  /** The dictionary's keys are exactly the ids seen. */
  lemma {:induction false} BuildKeys<R, A>(s: DimState<A>, rows: seq<R>, idOf: R -> string, convert: R -> Result<A>)
    requires Build(s, rows, idOf, convert).Ok?
    ensures Build(s, rows, idOf, convert).value.1.Keys == set i | 0 <= i < |rows| :: idOf(rows[i])
    decreases |rows|
  {
    if |rows| > 0 {
      var n := |rows| - 1;
      var init := rows[..n];
      BuildKeys(s, init, idOf, convert);
      assert forall i :: 0 <= i < n ==> init[i] == rows[i];
      assert (set i | 0 <= i < |rows| :: idOf(rows[i])) ==
             (set i | 0 <= i < n :: idOf(init[i])) + {idOf(rows[n])};
    }
  }

  /** When an id repeats, the record of its last row is the one kept. */
  lemma {:induction false} BuildLastWins<R, A>(s: DimState<A>, rows: seq<R>, idOf: R -> string, convert: R -> Result<A>, i: nat)
    requires Build(s, rows, idOf, convert).Ok?
    requires i < |rows|
    requires forall j :: i < j < |rows| ==> idOf(rows[j]) != idOf(rows[i])
    ensures convert(rows[i]).Ok?
    ensures idOf(rows[i]) in Build(s, rows, idOf, convert).value.1
    ensures Build(s, rows, idOf, convert).value.1[idOf(rows[i])].attrs == convert(rows[i]).value
    decreases |rows|
  {
    var n := |rows| - 1;
    var init := rows[..n];
    if i < n {
      assert forall j :: i < j < n ==> init[j] == rows[j];
      BuildLastWins(s, init, idOf, convert, i);
      assert init[i] == rows[i];
    }
  }

  /** Every record in the dictionary carries the key its dimension holds for
      its attributes, and the dimension stays consistent. */
  lemma {:induction false} BuildEntriesKeyed<R, A>(s: DimState<A>, rows: seq<R>, idOf: R -> string, convert: R -> Result<A>)
    requires WellFormed(s)
    requires Build(s, rows, idOf, convert).Ok?
    ensures WellFormed(Build(s, rows, idOf, convert).value.0)
    ensures var (s', dict) := Build(s, rows, idOf, convert).value;
            forall id :: id in dict ==> dict[id].attrs in s'.keys && s'.keys[dict[id].attrs] == dict[id].key
    decreases |rows|
  {
    if |rows| > 0 {
      var n := |rows| - 1;
      BuildEntriesKeyed(s, rows[..n], idOf, convert);
      var (s1, dict1) := Build(s, rows[..n], idOf, convert).value;
      var a := convert(rows[n]).value;
      var (s2, key) := Ensured(s1, a);
      assert Build(s, rows, idOf, convert).value == (s2, dict1[idOf(rows[n]) := Entry(a, key)]);
    }
  }

  /** Every converted row is stored in the dimension, and ensure is asked
      exactly once per row, in row order. */
  lemma {:induction false} BuildStoresAll<R, A>(s: DimState<A>, rows: seq<R>, idOf: R -> string, convert: R -> Result<A>)
    requires Build(s, rows, idOf, convert).Ok?
    ensures var s' := Build(s, rows, idOf, convert).value.0;
            && |s'.requests| == |s.requests| + |rows|
            && s'.requests[..|s.requests|] == s.requests
            && forall i :: 0 <= i < |rows| ==>
                 convert(rows[i]).Ok? && convert(rows[i]).value in s'.keys &&
                 s'.requests[|s.requests| + i] == convert(rows[i]).value
    decreases |rows|
  {
    if |rows| > 0 {
      var n := |rows| - 1;
      var init := rows[..n];
      BuildStoresAll(s, init, idOf, convert);
      var s1 := Build(s, init, idOf, convert).value.0;
      var a := convert(rows[n]).value;
      var s2 := Ensured(s1, a).0;
      assert Build(s, rows, idOf, convert).value.0 == s2;
      assert forall i :: 0 <= i < n ==> init[i] == rows[i];
      assert forall i :: 0 <= i < |s1.requests| ==> s2.requests[i] == s1.requests[i];
    }
  }

  // ---------------------------------------------------------------- the builder loop as a method

  /** The loop of CreateUserDim / CreateProductDim over a dimension. When a
      row fails to convert the run aborts and nothing is committed, so the
      dimension is then only promised to stay consistent. */
  method Fill<R, A(==)>(dim: Dimension<A>, rows: seq<R>, idOf: R -> string, convert: R -> Result<A>)
    returns (r: Result<map<string, Entry<A>>>)
    requires dim.Valid()
    modifies dim
    ensures dim.Valid()
    ensures r.Ok? <==> Build(old(dim.State()), rows, idOf, convert).Ok?
    ensures r.Ok? ==> Build(old(dim.State()), rows, idOf, convert) == Ok((dim.State(), r.value))
    ensures r.Err? ==> r.error == Build(old(dim.State()), rows, idOf, convert).error
  {
    var dict := map[];
    var i := 0;
    while i < |rows|
      invariant 0 <= i <= |rows|
      invariant dim.Valid()
      invariant Build(old(dim.State()), rows[..i], idOf, convert) == Ok((dim.State(), dict))
    {
      var row := rows[i];
      assert rows[..i + 1][..i] == rows[..i];
      match convert(row) {
        case Err(e) =>
          BuildErrSticky(old(dim.State()), rows, i + 1, idOf, convert);
          return Err(e);
        case Ok(a) =>
          var key := dim.Ensure(a);
          dict := dict[idOf(row) := Entry(a, key)];
      }
      i := i + 1;
    }
    assert rows[..i] == rows;
    r := Ok(dict);
  }

  /** CreateUserDim (sus.py:77-87). */
  method CreateUserDim(userDim: Dimension<UserAttrs>, members: seq<MemberRow>)
    returns (r: Result<map<string, Entry<UserAttrs>>>)
    requires userDim.Valid()
    modifies userDim
    ensures userDim.Valid()
    ensures r.Ok? <==> Build(old(userDim.State()), members, MemberId, UserAttrsOf).Ok?
    ensures r.Ok? ==> Build(old(userDim.State()), members, MemberId, UserAttrsOf) == Ok((userDim.State(), r.value))
    ensures r.Err? ==> r.error == Build(old(userDim.State()), members, MemberId, UserAttrsOf).error
  {
    r := Fill(userDim, members, MemberId, UserAttrsOf);
  }

  /** CreateProductDim (sus.py:89-98). */
  method CreateProductDim(productDim: Dimension<ProductAttrs>, products: seq<ProductRow>)
    returns (r: Result<map<string, Entry<ProductAttrs>>>)
    requires productDim.Valid()
    modifies productDim
    ensures productDim.Valid()
    ensures r.Ok? <==> Build(old(productDim.State()), products, ProductId, ProductAttrsOf).Ok?
    ensures r.Ok? ==> Build(old(productDim.State()), products, ProductId, ProductAttrsOf) == Ok((productDim.State(), r.value))
    ensures r.Err? ==> r.error == Build(old(productDim.State()), products, ProductId, ProductAttrsOf).error
  {
    r := Fill(productDim, products, ProductId, ProductAttrsOf);
  }
}
