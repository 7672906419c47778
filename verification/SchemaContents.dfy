/**
  The contents of a merged schema, keyword by keyword: stated by looking up keys in the schema,
  its variants and the result, without the functions that the merge is specified with.
 */
module SchemaContents {
  import opened Options
  import opened SchemaMerge

  /** The schema's `properties` give `k` the declaration `d`. */
  predicate Gives(w: Json, k: string, d: Json) {
    Lookup(w, "properties").Some? && Lookup(w, "properties").value.Obj? && (k, d) in Lookup(w, "properties").value.members
  }

  /** The schema's `required` list has the name. */
  predicate Demands(w: Json, n: string) {
    Lookup(w, "required").Some? && Lookup(w, "required").value.Arr? && Str(n) in Lookup(w, "required").value.items
  }

  predicate SomeGives(vs: seq<Json>, k: string, d: Json) {
    exists w :: w in vs && Gives(w, k, d)
  }

  ghost predicate SomeNames(vs: seq<Json>, k: string) {
    exists d :: SomeGives(vs, k, d)
  }

  predicate AllDemand(vs: seq<Json>, n: string) {
    forall w :: w in vs ==> Demands(w, n)
  }

  predicate AllRefuseOthers(vs: seq<Json>) {
    forall w :: w in vs ==> Lookup(w, "additionalProperties") == Some(Bool(false))
  }

  predicate Distinct<T(==)>(s: seq<T>) {
    forall i, j :: 0 <= i < j < |s| ==> s[i] != s[j]
  }

  lemma GivesIs(vs: seq<Json>, k: string, d: Json)
    ensures SomeGives(vs, k, d) <==> Declared(vs, k, d)
  {
    if SomeGives(vs, k, d) {
      var w :| w in vs && Gives(w, k, d);
      var i :| 0 <= i < |vs| && vs[i] == w;
      assert (k, d) in Props(vs[i]);
    }
    if Declared(vs, k, d) {
      var i :| 0 <= i < |vs| && (k, d) in Props(vs[i]);
      assert Gives(vs[i], k, d);
    }
  }

  lemma DemandsIs(w: Json, n: string)
    ensures Demands(w, n) <==> n in Required(w)
  {
  }

  lemma AllDemandIs(vs: seq<Json>, n: string)
    ensures AllDemand(vs, n) <==> AllRequire(vs, n)
  {
    if AllDemand(vs, n) {
      forall i | 0 <= i < |vs|
        ensures n in Required(vs[i])
      {
        DemandsIs(vs[i], n);
      }
    }
    if AllRequire(vs, n) {
      forall w | w in vs
        ensures Demands(w, n)
      {
        var i :| 0 <= i < |vs| && vs[i] == w;
        DemandsIs(vs[i], n);
      }
    }
  }

  lemma RefusalIs(vs: seq<Json>)
    ensures AllRefuseOthers(vs) <==> AllClosed(vs)
  {
    if AllRefuseOthers(vs) {
      forall i | 0 <= i < |vs|
        ensures IsClosed(vs[i])
      {
        assert vs[i] in vs;
      }
    }
    if AllClosed(vs) {
      forall w | w in vs
        ensures Lookup(w, "additionalProperties") == Some(Bool(false))
      {
        var i :| 0 <= i < |vs| && vs[i] == w;
        assert IsClosed(vs[i]);
      }
    }
  }

  /** A property of the result: what some variant declares it as, alone when there is one
      declaration, as the alternatives of an `anyOf` when there are several. */
  ghost predicate IsProperty(vs: seq<Json>, k: string, value: Json) {
    exists ds: seq<Json> ::
      && ds != [] && Distinct(ds) && (forall d :: d in ds <==> SomeGives(vs, k, d))
      && value == if |ds| == 1 then ds[0] else Obj([("anyOf", Arr(ds))])
  }

  /** Every property that a variant names, once, and no other. */
  ghost predicate PropertiesOfVariants(vs: seq<Json>, ps: Members) {
    && Distinct(Names(ps))
    && (forall k :: k in Names(ps) <==> SomeNames(vs, k))
    && forall i :: 0 <= i < |ps| ==> IsProperty(vs, ps[i].0, ps[i].1)
  }

  lemma NameHasValue(m: Members, k: string) returns (d: Json)
    requires k in Names(m)
    ensures (k, d) in m
  {
    var j :| 0 <= j < |m| && Names(m)[j] == k;
    d := m[j].1;
    assert (k, d) == m[j];
  }

  lemma ValueHasName(m: Members, k: string, d: Json)
    requires (k, d) in m
    ensures k in Names(m)
  {
    var j :| 0 <= j < |m| && m[j] == (k, d);
    assert Names(m)[j] == k;
  }

  lemma {:induction false} Named(vs: seq<Json>, k: string)
    ensures k in Names(AllProps(vs)) <==> SomeNames(vs, k)
  {
    if k in Names(AllProps(vs)) {
      var d := NameHasValue(AllProps(vs), k);
      GivesIs(vs, k, d);
    }
    if SomeNames(vs, k) {
      var d :| SomeGives(vs, k, d);
      GivesIs(vs, k, d);
      ValueHasName(AllProps(vs), k, d);
    }
  }

  lemma NameGiven(vs: seq<Json>, ps: Members, k: string)
    requires PropsMerged(ps, vs)
    ensures k in Names(ps) <==> SomeNames(vs, k)
  {
    Named(vs, k);
  }

  lemma PropertyGiven(vs: seq<Json>, ps: Members, i: nat)
    requires PropsMerged(ps, vs) && i < |ps|
    ensures IsProperty(vs, ps[i].0, ps[i].1)
  {
    var k := ps[i].0;
    var ds := FirstSeen(ValuesOf(AllProps(vs), k));
    forall d
      ensures d in ds <==> SomeGives(vs, k, d)
    {
      GivesIs(vs, k, d);
    }
    assert Distinct(ds);
  }

  lemma StringIn(ns: seq<string>, n: string)
    ensures n in ns <==> Str(n) in Strings(ns)
  {
    if n in ns {
      var i :| 0 <= i < |ns| && ns[i] == n;
      assert Strings(ns)[i] == Str(n);
    }
  }

  lemma PropertiesGiven(vs: seq<Json>, ps: Members)
    requires PropsMerged(ps, vs)
    ensures PropertiesOfVariants(vs, ps)
  {
    forall k
      ensures k in Names(ps) <==> SomeNames(vs, k)
    {
      NameGiven(vs, ps, k);
    }
    forall i | 0 <= i < |ps|
      ensures IsProperty(vs, ps[i].0, ps[i].1)
    {
      PropertyGiven(vs, ps, i);
    }
    assert Distinct(Names(ps));
  }

  /** The names that are required: those of the outer schema and those of every variant. */
  ghost predicate NamesOfBoth(m: Members, vs: seq<Json>, names: seq<Json>) {
    Distinct(names) && forall e :: e in names <==> IsDemanded(m, vs, e)
  }

  predicate IsDemanded(m: Members, vs: seq<Json>, e: Json) {
    e.Str? && (Demands(Obj(m), e.s) || AllDemand(vs, e.s))
  }

  lemma NamesDemanded(m: Members, vs: seq<Json>, names: seq<Json>)
    requires vs != [] && NamesMerged(names, m, vs)
    ensures NamesOfBoth(m, vs, names)
  {
    var ns := FirstSeen(Required(Obj(m)) + CommonNames(vs));
    forall e
      ensures e in names <==> IsDemanded(m, vs, e)
    {
      if e.Str? {
        DemandsIs(Obj(m), e.s);
        AllDemandIs(vs, e.s);
        StringIn(ns, e.s);
      }
    }
    assert Distinct(names);
  }

  /** Main theorem: what the merged schema holds under each of its own keywords. */
  lemma MergedContents(m: Members, key: string, vs: seq<Json>, r: Members)
    requires vs != [] && Unique(m) && IsMerged(m, key, vs, r)
    ensures Lookup(Obj(r), key).None? && Lookup(Obj(r), "type") == Some(Str("object"))
    ensures exists ps :: Lookup(Obj(r), "properties") == Some(Obj(ps)) && PropertiesOfVariants(vs, ps)
    ensures exists names :: Lookup(Obj(r), "required") == Some(Arr(names)) && NamesOfBoth(m, vs, names)
    ensures Lookup(Obj(r), "additionalProperties") ==
            if AllRefuseOthers(vs) then Some(Bool(false)) else Lookup(Obj(m), "additionalProperties")
  {
    var ps, names := Get(r, "properties").members, Get(r, "required").items;
    PropertiesGiven(vs, ps);
    NamesDemanded(m, vs, names);
    assert Lookup(Obj(r), "properties") == Some(Obj(ps)) && Lookup(Obj(r), "required") == Some(Arr(names));
    RefusalIs(vs);
    if !AllClosed(vs) {
      SameEntry(m, r, "additionalProperties");
    }
  }

  lemma SameEntry(m: Members, r: Members, k: string)
    requires Unique(m) && Unique(r) && forall v :: (k, v) in r <==> (k, v) in m
    ensures Lookup(Obj(r), k) == Lookup(Obj(m), k)
  {
    HasMember(r, k);
    HasMember(m, k);
    if Has(m, k) {
      UniqueGet(r, k, Get(m, k));
    }
  }

  // ---------------------------------------------------------------------------- order

  /** `s` is `t` with some elements left out. */
  predicate Subsequence(s: seq<string>, t: seq<string>)
    decreases |t|
  {
    if s == [] then true
    else if t == [] then false
    else if s[|s| - 1] == t[|t| - 1] then Subsequence(s[..|s| - 1], t[..|t| - 1])
    else Subsequence(s, t[..|t| - 1])
  }

  lemma {:induction false} SubsequenceIsTransitive(s: seq<string>, t: seq<string>, u: seq<string>)
    requires Subsequence(s, t) && Subsequence(t, u)
    ensures Subsequence(s, u)
    decreases |u|
  {
    if s != [] {
      if t[|t| - 1] != u[|u| - 1] {
        SubsequenceIsTransitive(s, t, u[..|u| - 1]);
        SkipLast(s, u);
      } else if s[|s| - 1] == t[|t| - 1] {
        SubsequenceIsTransitive(s[..|s| - 1], t[..|t| - 1], u[..|u| - 1]);
      } else {
        SubsequenceIsTransitive(s, t[..|t| - 1], u[..|u| - 1]);
      }
    }
  }

  /** One more element to leave out. */
  lemma {:induction false} SkipLast(s: seq<string>, t: seq<string>)
    requires t != [] && Subsequence(s, t[..|t| - 1])
    ensures Subsequence(s, t)
    decreases |t|, 0
  {
    if s != [] && s[|s| - 1] == t[|t| - 1] {
      DropLast(s, t[..|t| - 1]);
    }
  }

  lemma {:induction false} DropLast(s: seq<string>, t: seq<string>)
    requires s != [] && Subsequence(s, t)
    ensures Subsequence(s[..|s| - 1], t)
    decreases |t|, 1
  {
    var less := s[..|s| - 1];
    if less != [] {
      if s[|s| - 1] == t[|t| - 1] {
        SkipLast(less, t);
      } else {
        DropLast(s, t[..|t| - 1]);
        SkipLast(less, t);
      }
    }
  }

  lemma {:induction false} KeptInOrder(common: seq<string>, own: seq<string>)
    ensures Subsequence(Kept(common, own), common)
  {
    if common != [] {
      var less, last := common[..|common| - 1], common[|common| - 1];
      KeptInOrder(less, own);
      if last in own {
        assert (Kept(less, own) + [last])[..|Kept(less, own)|] == Kept(less, own);
      } else {
        assert Kept(less, own) + [] == Kept(less, own);
        SkipLast(Kept(less, own), common);
      }
    }
  }

  lemma {:induction false} SameIsSubsequence(s: seq<string>)
    ensures Subsequence(s, s)
  {
    if s != [] {
      SameIsSubsequence(s[..|s| - 1]);
    }
  }

  /** The names that all variants require come in the order of the first variant. */
  lemma {:induction false} CommonInOrder(vs: seq<Json>)
    requires vs != []
    ensures Subsequence(CommonNames(vs), Required(vs[0]))
  {
    if |vs| == 1 {
      SameIsSubsequence(Required(vs[0]));
    } else {
      var less := CommonNames(vs[..|vs| - 1]);
      CommonInOrder(vs[..|vs| - 1]);
      KeptInOrder(less, Required(vs[|vs| - 1]));
      SubsequenceIsTransitive(CommonNames(vs), less, Required(vs[0]));
    }
  }

  lemma {:induction false} SeenGrows<T(!new)>(s: seq<T>, k: nat)
    requires k <= |s|
    ensures FirstSeen(s[..k]) <= FirstSeen(s)
    decreases |s|
  {
    if k < |s| {
      assert s[..|s| - 1][..k] == s[..k];
      SeenGrows(s[..|s| - 1], k);
    } else {
      assert s[..k] == s;
    }
  }

  lemma {:induction false} PropsGrow(vs: seq<Json>, i: nat)
    requires i <= |vs|
    ensures AllProps(vs[..i]) <= AllProps(vs)
    decreases |vs|
  {
    if i < |vs| {
      assert vs[..|vs| - 1][..i] == vs[..i];
      PropsGrow(vs[..|vs| - 1], i);
    } else {
      assert vs[..i] == vs;
    }
  }

  lemma NamesOfStart(a: Members, b: Members)
    requires a <= b
    ensures FirstSeen(Names(a)) <= FirstSeen(Names(b))
  {
    assert Names(b)[..|a|] == Names(a);
    SeenGrows(Names(b), |a|);
  }

  lemma {:induction false} ValuesOfStart(a: Members, b: Members, k: string)
    requires a <= b
    ensures ValuesOf(a, k) <= ValuesOf(b, k)
    decreases |b|
  {
    if |a| < |b| {
      ValuesOfStart(a, b[..|b| - 1], k);
    } else {
      assert a == b;
    }
  }

  lemma StartIs<T>(a: seq<T>, b: seq<T>)
    requires a <= b
    ensures b[..|a|] == a
  {
  }

  lemma {:induction false} NamedFirst(vs: seq<Json>, i: nat) returns (first: seq<string>)
    requires i <= |vs|
    ensures first <= FirstSeen(Names(AllProps(vs)))
    ensures forall k :: k in first <==> SomeNames(vs[..i], k)
  {
    PropsGrow(vs, i);
    NamesOfStart(AllProps(vs[..i]), AllProps(vs));
    first := FirstSeen(Names(AllProps(vs[..i])));
    forall k
      ensures k in first <==> SomeNames(vs[..i], k)
    {
      Named(vs[..i], k);
    }
  }

  /** The properties come in the order of the variants: those that the first `i` variants name
      come before all others, for every `i`; */
  lemma {:induction false} PropertiesInOrder(vs: seq<Json>, ps: Members, i: nat) returns (n: nat)
    requires PropsMerged(ps, vs) && i <= |vs|
    ensures n <= |ps| && forall k :: k in Names(ps)[..n] <==> SomeNames(vs[..i], k)
  {
    var first := NamedFirst(vs, i);
    StartIs(first, Names(ps));
    n := |first|;
  }

  lemma {:induction false} GivenFirst(vs: seq<Json>, k: string, i: nat) returns (first: seq<Json>)
    requires i <= |vs|
    ensures first <= FirstSeen(ValuesOf(AllProps(vs), k))
    ensures forall d :: d in first <==> SomeGives(vs[..i], k, d)
  {
    var some, all := ValuesOf(AllProps(vs[..i]), k), ValuesOf(AllProps(vs), k);
    PropsGrow(vs, i);
    ValuesOfStart(AllProps(vs[..i]), AllProps(vs), k);
    SeenGrows(all, |some|);
    StartIs(some, all);
    first := FirstSeen(some);
    forall d
      ensures d in first <==> SomeGives(vs[..i], k, d)
    {
      GivesIs(vs[..i], k, d);
    }
  }

  /** and so do the declarations of each of them. */
  lemma {:induction false} DeclarationsInOrder(vs: seq<Json>, ps: Members, j: nat, i: nat) returns (ds: seq<Json>, n: nat)
    requires PropsMerged(ps, vs) && j < |ps| && i <= |vs|
    ensures ds != [] && ps[j].1 == if |ds| == 1 then ds[0] else Obj([("anyOf", Arr(ds))])
    ensures n <= |ds| && forall d :: d in ds[..n] <==> SomeGives(vs[..i], ps[j].0, d)
  {
    var first := GivenFirst(vs, ps[j].0, i);
    ds := FirstSeen(ValuesOf(AllProps(vs), ps[j].0));
    StartIs(first, ds);
    n := |first|;
  }

  /** The required names of the outer schema come before those that all variants share. */
  lemma {:induction false} OuterNamesFirst(m: Members, vs: seq<Json>, names: seq<Json>) returns (n: nat)
    requires vs != [] && NamesMerged(names, m, vs)
    ensures n <= |names| && forall e :: e in names[..n] <==> e.Str? && Demands(Obj(m), e.s)
  {
    var own := Required(Obj(m));
    var all := own + CommonNames(vs);
    SeenGrows(all, |own|);
    assert all[..|own|] == own;
    var first := FirstSeen(own);
    n := |first|;
    assert names[..n] == Strings(first);
    forall e
      ensures e in names[..n] <==> e.Str? && Demands(Obj(m), e.s)
    {
      if e.Str? {
        DemandsIs(Obj(m), e.s);
        StringIn(first, e.s);
      }
    }
  }

  /** A schema that is nothing but a union becomes these entries, in this order. */
  lemma OrderOfNewEntries(key: string, closed: bool)
    requires key == "anyOf" || key == "oneOf"
    ensures MergedOrder([key], key, closed) ==
            ["type", "properties", "required"] + if closed then ["additionalProperties"] else []
  {
    KeywordsDiffer(key);
    assert Without([key], key) == [];
    assert AddName([], "type") == ["type"];
    assert AddName(["type"], "properties") == ["type", "properties"];
    assert AddName(["type", "properties"], "required") == ["type", "properties", "required"];
    assert "additionalProperties" !in ["type", "properties", "required"];
  }
}
