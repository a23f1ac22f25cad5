/** Mixed-radix codes of card lists, and tables that invert a list of codes. */
module MixedRadix {
  import opened Wrappers
  import opened Counting

  function Power(base: nat, n: nat): nat {
    if n == 0 then 1 else Power(base, n - 1) * base
  }

  /** Digit i has weight base to the i. */
  function CodeOf(ds: seq<nat>, base: nat): nat {
    if ds == [] then 0 else CodeOf(ds[..|ds| - 1], base) + ds[|ds| - 1] * Power(base, |ds| - 1)
  }

  predicate Digits(ds: seq<nat>, base: nat) {
    forall i :: 0 <= i < |ds| ==> ds[i] < base
  }

  lemma DigitsAppend(ds: seq<nat>, es: seq<nat>, base: nat)
    requires Digits(ds, base) && Digits(es, base)
    ensures Digits(ds + es, base)
  {
  }

  lemma DigitBound(low: nat, d: nat, p: nat, base: nat)
    requires low < p && d < base
    ensures low + d * p < p * base
  {
    assert (d + 1) * p <= base * p;
  }

  /** Every code is within the table. */
  lemma {:induction false} CodeBound(ds: seq<nat>, base: nat)
    requires Digits(ds, base)
    ensures CodeOf(ds, base) < Power(base, |ds|)
  {
    if ds != [] {
      var last := |ds| - 1;
      CodeBound(ds[..last], base);
      DigitBound(CodeOf(ds[..last], base), ds[last], Power(base, last), base);
    }
  }

  /** The first digit is the lowest: the rest counts base times. */
  lemma {:induction false} CodeFirst(d: nat, ds: seq<nat>, base: nat)
    ensures CodeOf([d] + ds, base) == d + base * CodeOf(ds, base)
  {
    var all := [d] + ds;
    if ds == [] {
      assert all[..0] == [];
    } else {
      var last := |ds| - 1;
      CodeFirst(d, ds[..last], base);
      assert all[..|all| - 1] == [d] + ds[..last];
      Shifted(CodeOf(ds[..last], base), ds[last], Power(base, last), base);
    }
  }

  lemma Shifted(low: nat, d: nat, p: nat, base: nat)
    ensures base * (low + d * p) == base * low + d * (p * base)
  {
    assert base * (d * p) == d * (p * base);
  }

  lemma {:induction false} CodeInjective(ds: seq<nat>, es: seq<nat>, base: nat)
    requires Digits(ds, base) && Digits(es, base) && |ds| == |es| && CodeOf(ds, base) == CodeOf(es, base)
    ensures ds == es
  {
    if ds != [] {
      var last := |ds| - 1;
      CodeBound(ds[..last], base);
      CodeBound(es[..last], base);
      DigitUnique(CodeOf(ds[..last], base), ds[last], CodeOf(es[..last], base), es[last], Power(base, last));
      CodeInjective(ds[..last], es[..last], base);
      assert ds == ds[..last] + [ds[last]] && es == es[..last] + [es[last]];
    }
  }

  method Encode(ds: seq<nat>, base: nat) returns (code: nat)
    ensures code == CodeOf(ds, base)
  {
    code := 0;
    for i := 0 to |ds|
      invariant code == CodeOf(ds[..i], base)
    {
      assert ds[..i + 1][..i] == ds[..i];
      code := code + ds[i] * Power(base, i);
    }
    assert ds[..|ds|] == ds;
  }

  /** The table holds the position of each code of the list, and nothing else. */
  ghost predicate Inverts(table: seq<Option<nat>>, codes: seq<nat>) {
    && (forall i :: 0 <= i < |codes| ==> codes[i] < |table| && table[codes[i]] == Some(i))
    && (forall x :: 0 <= x < |table| && table[x].Some? ==> table[x].value < |codes| && codes[table[x].value] == x)
  }

  lemma InvertsNext(table: seq<Option<nat>>, codes: seq<nat>, i: nat)
    requires i < |codes| && Inverts(table, codes[..i]) && Distinct(codes) && codes[i] < |table|
    ensures Inverts(table[codes[i] := Some(i)], codes[..i + 1])
  {
    var next := table[codes[i] := Some(i)];
    assert codes[..i + 1] == codes[..i] + [codes[i]];
    forall j | 0 <= j <= i ensures next[codes[j]] == Some(j) {
      if j < i { assert codes[..i][j] == codes[j]; }
    }
  }
}
