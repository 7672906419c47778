/**
  What the merged schema accepts, exactly, and what follows: nothing a variant accepts is
  lost, closed variants stay closed, and merging a second time changes nothing.
 */
module SchemaMeaning {
  import opened SchemaMerge

  ghost predicate SomeDeclares(vs: seq<Json>, k: string) {
    exists d :: Declared(vs, k, d)
  }

  /** Some declaration of property `k` accepts the value. */
  ghost predicate SomeAccepts(x: Other, vs: seq<Json>, k: string, v: Json) {
    exists d :: Declared(vs, k, d) && Accepts(x, d, v)
  }

  /** The keywords of the outer schema that the merge does not replace. */
  ghost predicate OuterAccepts(x: Other, m: Members, key: string, v: Json) {
    forall i :: 0 <= i < |m| && !IsSpecial(m[i].0, key) ==> Keyword(x, Obj(m), i, v)
  }

  ghost predicate NamesPresent(m: Members, vs: seq<Json>, v: Members)
  {
    && (forall n :: n in Required(Obj(m)) ==> Has(v, n))
    && (forall n :: AllRequire(vs, n) ==> Has(v, n))
  }

  ghost predicate PropertiesFit(x: Other, vs: seq<Json>, v: Members) {
    forall k :: Has(v, k) && SomeDeclares(vs, k) ==> SomeAccepts(x, vs, k, Get(v, k))
  }

  /** A key no variant declares: refused when all variants are closed, and otherwise left to
      the outer schema. */
  ghost predicate UndeclaredFit(x: Other, m: Members, vs: seq<Json>, v: Members) {
    forall j :: 0 <= j < |v| && !SomeDeclares(vs, v[j].0) ==>
      && !AllClosed(vs)
      && forall i :: 0 <= i < |m| && m[i].0 == "additionalProperties" ==> Accepts(x, m[i].1, v[j].1)
  }

  ghost predicate Meets(x: Other, m: Members, key: string, vs: seq<Json>, v: Json) {
    && v.Obj?
    && OuterAccepts(x, m, key, v)
    && NamesPresent(m, vs, v.members)
    && PropertiesFit(x, vs, v.members)
    && UndeclaredFit(x, m, vs, v.members)
  }

  // ------------------------------------------------------------------- single keywords

  lemma TypeMeans(x: Other, r: Members, i: nat, v: Json)
    requires i < |r| && r[i] == ("type", Str("object"))
    ensures Keyword(x, Obj(r), i, v) <==> v.Obj?
  {
  }

  lemma PropertiesMean(x: Other, r: Members, i: nat, v: Json, ps: Members)
    requires i < |r| && r[i] == ("properties", Obj(ps))
    ensures Keyword(x, Obj(r), i, v) <==> (v.Obj? ==> forall j :: 0 <= j < |ps| && Has(v.members, ps[j].0) ==> Accepts(x, ps[j].1, Get(v.members, ps[j].0)))
  {
    KeywordsDiffer("anyOf");
    assert Obj(ps).members == ps;
    assert Obj(r).members[i] == r[i];
  }

  lemma RequiredMeans(x: Other, r: Members, i: nat, v: Json, items: seq<Json>)
    requires i < |r| && r[i] == ("required", Arr(items))
    ensures Keyword(x, Obj(r), i, v) <==> (v.Obj? ==> forall n :: n in StringsOf(items) ==> Has(v.members, n))
  {
    KeywordsDiffer("anyOf");
    assert Obj(r).members[i] == r[i];
    if v.Obj? {
      StringsPresent(items, v.members);
    }
  }

  lemma StringsPresent(items: seq<Json>, v: Members)
    ensures (forall j :: 0 <= j < |items| && items[j].Str? ==> Has(v, items[j].s)) <==> (forall n :: n in StringsOf(items) ==> Has(v, n))
  {
    if forall j :: 0 <= j < |items| && items[j].Str? ==> Has(v, items[j].s) {
      forall n | n in StringsOf(items)
        ensures Has(v, n)
      {
        var j :| 0 <= j < |items| && items[j] == Str(n);
      }
    }
    if forall n :: n in StringsOf(items) ==> Has(v, n) {
      forall j | 0 <= j < |items| && items[j].Str?
        ensures Has(v, items[j].s)
      {
        assert Str(items[j].s) in items;
      }
    }
  }

  lemma AdditionalMeans(x: Other, r: Members, i: nat, v: Json)
    requires i < |r| && r[i].0 == "additionalProperties"
    ensures Keyword(x, Obj(r), i, v) <==>
            (v.Obj? ==> forall j :: 0 <= j < |v.members| && !Declares(r, v.members[j].0) ==> Accepts(x, r[i].1, v.members[j].1))
  {
    KeywordsDiffer("anyOf");
    assert Obj(r).members[i] == r[i];
  }

  lemma OtherMeans(x: Other, r: Members, i: nat, m: Members, j: nat, v: Json)
    requires i < |r| && j < |m| && r[i] == m[j] && r[i].0 != "additionalProperties"
    ensures Keyword(x, Obj(r), i, v) <==> Keyword(x, Obj(m), j, v)
  {
  }

  lemma OneOf(x: Other, ds: seq<Json>, v: Json)
    requires ds != []
    ensures Accepts(x, Alternatives(ds), v) <==> exists j :: 0 <= j < |ds| && Accepts(x, ds[j], v)
  {
    if |ds| > 1 {
      var m := [("anyOf", Arr(ds))];
      assert Alternatives(ds) == Obj(m);
      AnyOfMeans(x, m, 0, v, ds);
      assert Accepts(x, Obj(m), v) <==> Keyword(x, Obj(m), 0, v);
    }
  }

  lemma AnyOfMeans(x: Other, r: Members, i: nat, v: Json, items: seq<Json>)
    requires i < |r| && r[i] == ("anyOf", Arr(items))
    ensures Keyword(x, Obj(r), i, v) <==> exists j :: 0 <= j < |items| && Accepts(x, items[j], v)
  {
    KeywordsDiffer("anyOf");
    assert Obj(r).members[i] == r[i];
  }

  // ----------------------------------------------------------------- the merged members

  lemma Entry(r: Members, key: string) returns (i: nat)
    requires Has(r, key)
    ensures i < |r| && r[i] == (key, Get(r, key))
  {
    assert (key, Get(r, key)) in r;
    i :| 0 <= i < |r| && r[i] == (key, Get(r, key));
  }

  lemma EntryIs(r: Members, i: nat)
    requires Unique(r) && i < |r|
    ensures Has(r, r[i].0) && Get(r, r[i].0) == r[i].1
  {
    assert (r[i].0, r[i].1) == r[i];
    UniqueGet(r, r[i].0, r[i].1);
  }

  lemma NameOf(m: Members, k: string)
    ensures k in Names(m) <==> Has(m, k)
  {
    HasMember(m, k);
    if Has(m, k) {
      var i := Entry(m, k);
      assert Names(m)[i] == k;
    }
    if k in Names(m) {
      var i :| 0 <= i < |m| && Names(m)[i] == k;
      assert m[i] == (k, m[i].1);
    }
  }

  /** The merged properties are the declared ones. */
  lemma MergedHas(ps: Members, vs: seq<Json>, k: string)
    requires PropsMerged(ps, vs)
    ensures Has(ps, k) <==> SomeDeclares(vs, k)
  {
    NameOf(ps, k);
    NameOf(AllProps(vs), k);
    HasMember(AllProps(vs), k);
  }

  lemma MergedAccepts(x: Other, ps: Members, vs: seq<Json>, i: nat, v: Json)
    requires PropsMerged(ps, vs) && i < |ps|
    ensures Accepts(x, ps[i].1, v) <==> SomeAccepts(x, vs, ps[i].0, v)
  {
    var k := ps[i].0;
    var ds := FirstSeen(ValuesOf(AllProps(vs), k));
    OneOf(x, ds, v);
    forall d
      ensures d in ds <==> Declared(vs, k, d)
    {
      assert d in ds <==> d in ValuesOf(AllProps(vs), k);
      assert d in ValuesOf(AllProps(vs), k) <==> (k, d) in AllProps(vs);
    }
    if SomeAccepts(x, vs, k, v) {
      var d :| Declared(vs, k, d) && Accepts(x, d, v);
      assert d in ds;
    }
  }

  lemma MergedProperties(x: Other, r: Members, i: nat, ps: Members, vs: seq<Json>, v: Json)
    requires v.Obj? && PropsMerged(ps, vs) && i < |r| && r[i] == ("properties", Obj(ps))
    ensures Keyword(x, Obj(r), i, v) <==> PropertiesFit(x, vs, v.members)
  {
    PropertiesMean(x, r, i, v, ps);
    if Keyword(x, Obj(r), i, v) {
      forall k | Has(v.members, k) && SomeDeclares(vs, k)
        ensures SomeAccepts(x, vs, k, Get(v.members, k))
      {
        MergedHas(ps, vs, k);
        var j := Entry(ps, k);
        MergedAccepts(x, ps, vs, j, Get(v.members, k));
      }
    }
    if PropertiesFit(x, vs, v.members) {
      forall j | 0 <= j < |ps| && Has(v.members, ps[j].0)
        ensures Accepts(x, ps[j].1, Get(v.members, ps[j].0))
      {
        assert (ps[j].0, ps[j].1) == ps[j];
        HasMember(ps, ps[j].0);
        MergedHas(ps, vs, ps[j].0);
        MergedAccepts(x, ps, vs, j, Get(v.members, ps[j].0));
      }
    }
  }

  lemma MergedNames(x: Other, m: Members, r: Members, i: nat, items: seq<Json>, vs: seq<Json>, v: Json)
    requires v.Obj? && vs != [] && NamesMerged(items, m, vs) && i < |r| && r[i] == ("required", Arr(items))
    ensures Keyword(x, Obj(r), i, v) <==> NamesPresent(m, vs, v.members)
  {
    RequiredMeans(x, r, i, v, items);
    var names := FirstSeen(Required(Obj(m)) + CommonNames(vs));
    forall n
      ensures n in StringsOf(items) <==> n in Required(Obj(m)) || n in CommonNames(vs)
    {
      if n in names {
        var j :| 0 <= j < |names| && names[j] == n;
        assert items[j] == Str(n);
      }
    }
  }

  lemma DeclaredInMerged(r: Members, ps: Members, vs: seq<Json>, k: string)
    requires Has(r, "properties") && Get(r, "properties") == Obj(ps) && PropsMerged(ps, vs)
    ensures Declares(r, k) <==> SomeDeclares(vs, k)
  {
    MergedHas(ps, vs, k);
  }

  /** What the `additionalProperties` entries of a schema ask for a value no variant declares. */
  ghost predicate ExtraAccepts(x: Other, r: Members, v: Json) {
    forall i :: 0 <= i < |r| && r[i].0 == "additionalProperties" ==> Accepts(x, r[i].1, v)
  }

  lemma ExtraIsUndeclared(x: Other, m: Members, key: string, vs: seq<Json>, r: Members, v: Json)
    requires vs != [] && IsMerged(m, key, vs, r)
    ensures ExtraAccepts(x, r, v) <==> !AllClosed(vs) && ExtraAccepts(x, m, v)
  {
    if AllClosed(vs) {
      var i := Entry(r, "additionalProperties");
      assert !Accepts(x, r[i].1, v);
    } else {
      SameExtra(x, m, r, v);
      SameExtra(x, r, m, v);
    }
  }

  lemma SameExtra(x: Other, m: Members, r: Members, v: Json)
    requires forall e :: ("additionalProperties", e) in r <==> ("additionalProperties", e) in m
    ensures ExtraAccepts(x, m, v) ==> ExtraAccepts(x, r, v)
  {
    forall i | ExtraAccepts(x, m, v) && 0 <= i < |r| && r[i].0 == "additionalProperties"
      ensures Accepts(x, r[i].1, v)
    {
      assert r[i] == ("additionalProperties", r[i].1);
      assert ("additionalProperties", r[i].1) in m;
      var j :| 0 <= j < |m| && m[j] == ("additionalProperties", r[i].1);
    }
  }

  ghost predicate ExtraKeywords(x: Other, r: Members, v: Json) {
    forall i :: 0 <= i < |r| && r[i].0 == "additionalProperties" ==> Keyword(x, Obj(r), i, v)
  }

  lemma MergedExtra(x: Other, m: Members, key: string, vs: seq<Json>, r: Members, v: Json)
    requires v.Obj? && vs != [] && IsMerged(m, key, vs, r)
    ensures ExtraKeywords(x, r, v) <==> UndeclaredFit(x, m, vs, v.members)
  {
    var ps := Get(r, "properties").members;
    forall j | 0 <= j < |v.members|
      ensures Declares(r, v.members[j].0) <==> SomeDeclares(vs, v.members[j].0)
      ensures ExtraAccepts(x, r, v.members[j].1) <==> !AllClosed(vs) && ExtraAccepts(x, m, v.members[j].1)
    {
      DeclaredInMerged(r, ps, vs, v.members[j].0);
      ExtraIsUndeclared(x, m, key, vs, r, v.members[j].1);
    }
    ExtraPerValue(x, r, v);
  }

  lemma ExtraPerValue(x: Other, r: Members, v: Json)
    requires v.Obj?
    ensures ExtraKeywords(x, r, v) <==> forall j :: 0 <= j < |v.members| && !Declares(r, v.members[j].0) ==> ExtraAccepts(x, r, v.members[j].1)
  {
    forall i | 0 <= i < |r| && r[i].0 == "additionalProperties"
      ensures Keyword(x, Obj(r), i, v) <==> forall j :: 0 <= j < |v.members| && !Declares(r, v.members[j].0) ==> Accepts(x, r[i].1, v.members[j].1)
    {
      AdditionalMeans(x, r, i, v);
    }
  }

  // --------------------------------------------------------------------- the main result

  /** The merged schema accepts exactly the objects that keep to the outer schema, carry the
      required names, give every declared property a value that one of its declarations
      accepts, and use an undeclared key only where that is allowed. */
  lemma MergedMeans(x: Other, m: Members, key: string, vs: seq<Json>, r: Members, v: Json)
    requires vs != [] && (key == "anyOf" || key == "oneOf") && IsMerged(m, key, vs, r)
    ensures Accepts(x, Obj(r), v) <==> Meets(x, m, key, vs, v)
  {
    if Accepts(x, Obj(r), v) {
      AcceptedMeets(x, m, key, vs, r, v);
    }
    if Meets(x, m, key, vs, v) {
      MeetingIsAccepted(x, m, key, vs, r, v);
    }
  }

  lemma AcceptedMeets(x: Other, m: Members, key: string, vs: seq<Json>, r: Members, v: Json)
    requires vs != [] && (key == "anyOf" || key == "oneOf") && IsMerged(m, key, vs, r)
    requires Accepts(x, Obj(r), v)
    ensures Meets(x, m, key, vs, v)
  {
    var i := Entry(r, "type");
    TypeMeans(x, r, i, v);
    i := Entry(r, "properties");
    MergedProperties(x, r, i, Get(r, "properties").members, vs, v);
    i := Entry(r, "required");
    MergedNames(x, m, r, i, Get(r, "required").items, vs, v);
    MergedExtra(x, m, key, vs, r, v);
    forall j | 0 <= j < |m| && !IsSpecial(m[j].0, key)
      ensures Keyword(x, Obj(m), j, v)
    {
      assert m[j] in r;
      var h :| 0 <= h < |r| && r[h] == m[j];
      OtherMeans(x, r, h, m, j, v);
    }
  }

  lemma MeetingIsAccepted(x: Other, m: Members, key: string, vs: seq<Json>, r: Members, v: Json)
    requires vs != [] && (key == "anyOf" || key == "oneOf") && IsMerged(m, key, vs, r)
    requires Meets(x, m, key, vs, v)
    ensures Accepts(x, Obj(r), v)
  {
    forall i | 0 <= i < |r|
      ensures Keyword(x, Obj(r), i, v)
    {
      EntryIs(r, i);
      if r[i].0 == "type" {
        TypeMeans(x, r, i, v);
      } else if r[i].0 == "properties" {
        MergedProperties(x, r, i, Get(r, "properties").members, vs, v);
      } else if r[i].0 == "required" {
        MergedNames(x, m, r, i, Get(r, "required").items, vs, v);
      } else if r[i].0 == "additionalProperties" {
        MergedExtra(x, m, key, vs, r, v);
      } else {
        assert r[i].0 != key;
        assert r[i] in m;
        var j :| 0 <= j < |m| && m[j] == r[i];
        OtherMeans(x, r, i, m, j, v);
      }
    }
  }

  // --------------------------------------------------------------------- what follows

  /** No call that fits one variant is lost: an object that the outer schema's own keywords
      and variant `c` accept, and that uses only properties this variant declares, is accepted
      by the merged schema. */
  lemma NothingIsLost(x: Other, m: Members, key: string, vs: seq<Json>, r: Members, c: nat, v: Json)
    requires (key == "anyOf" || key == "oneOf") && c < |vs| && vs[c].Obj? && IsMerged(m, key, vs, r)
    requires v.Obj? && Accepts(x, vs[c], v)
    requires OuterAccepts(x, m, key, v) && forall i :: 0 <= i < |m| && m[i].0 == "required" ==> Keyword(x, Obj(m), i, v)
    requires forall i :: 0 <= i < |v.members| ==> Has(Props(vs[c]), v.members[i].0)
    ensures Accepts(x, Obj(r), v)
  {
    VariantMeets(x, m, key, vs, c, v);
    MeetingIsAccepted(x, m, key, vs, r, v);
  }

  lemma VariantMeets(x: Other, m: Members, key: string, vs: seq<Json>, c: nat, v: Json)
    requires c < |vs| && vs[c].Obj? && v.Obj? && Accepts(x, vs[c], v)
    requires OuterAccepts(x, m, key, v) && forall i :: 0 <= i < |m| && m[i].0 == "required" ==> Keyword(x, Obj(m), i, v)
    requires forall i :: 0 <= i < |v.members| ==> Has(Props(vs[c]), v.members[i].0)
    ensures Meets(x, m, key, vs, v)
  {
    VariantFits(x, vs, c, v);
    VariantDeclares(x, m, vs, c, v);
    RequiredHolds(x, m, v);
    VariantRequires(x, vs, c, v);
  }

  lemma VariantFits(x: Other, vs: seq<Json>, c: nat, v: Json)
    requires c < |vs| && vs[c].Obj? && v.Obj? && Accepts(x, vs[c], v)
    requires forall i :: 0 <= i < |v.members| ==> Has(Props(vs[c]), v.members[i].0)
    ensures PropertiesFit(x, vs, v.members)
  {
    forall k | Has(v.members, k)
      ensures SomeAccepts(x, vs, k, Get(v.members, k))
    {
      VariantAccepts(x, vs, c, v, k);
    }
  }

  lemma VariantDeclares(x: Other, m: Members, vs: seq<Json>, c: nat, v: Json)
    requires c < |vs| && v.Obj?
    requires forall i :: 0 <= i < |v.members| ==> Has(Props(vs[c]), v.members[i].0)
    ensures UndeclaredFit(x, m, vs, v.members)
  {
    forall i | 0 <= i < |v.members|
      ensures SomeDeclares(vs, v.members[i].0)
    {
      var j := Entry(Props(vs[c]), v.members[i].0);
      assert Declared(vs, v.members[i].0, Props(vs[c])[j].1);
    }
  }

  lemma VariantRequires(x: Other, vs: seq<Json>, c: nat, v: Json)
    requires c < |vs| && vs[c].Obj? && v.Obj? && Accepts(x, vs[c], v)
    ensures forall n :: AllRequire(vs, n) ==> Has(v.members, n)
  {
    var m := vs[c].members;
    assert vs[c] == Obj(m);
    RequiredHolds(x, m, v);
    assert forall n :: AllRequire(vs, n) ==> n in Required(vs[c]);
  }

  lemma RequiredHolds(x: Other, m: Members, v: Json)
    requires v.Obj? && forall i :: 0 <= i < |m| && m[i].0 == "required" ==> Keyword(x, Obj(m), i, v)
    ensures forall n :: n in Required(Obj(m)) ==> Has(v.members, n)
  {
    if Has(m, "required") && Get(m, "required").Arr? {
      var i := Entry(m, "required");
      RequiredMeans(x, m, i, v, Get(m, "required").items);
    }
  }

  lemma VariantAccepts(x: Other, vs: seq<Json>, c: nat, v: Json, k: string)
    requires c < |vs| && vs[c].Obj? && v.Obj? && Accepts(x, vs[c], v)
    requires Has(v.members, k) && forall i :: 0 <= i < |v.members| ==> Has(Props(vs[c]), v.members[i].0)
    ensures SomeAccepts(x, vs, k, Get(v.members, k))
  {
    var w, ps := vs[c].members, Props(vs[c]);
    var h := Entry(v.members, k);
    var i := Entry(w, "properties");
    PropertiesMean(x, w, i, v, ps);
    assert Keyword(x, Obj(w), i, v);
    var j := Entry(ps, k);
    assert Declared(vs, k, ps[j].1);
  }

  /** The same from the whole outer schema: an object it accepts is accepted after the merge,
      when some variant accepts the object and declares all its properties. */
  lemma MergeIsSound(x: Other, params: Json, r: Members, c: nat, v: Json)
    requires Mergeable(params) && IsMerged(params.members, UnionKey(params.members), Variants(params), r)
    requires v.Obj? && Accepts(x, params, v)
    requires c < |Variants(params)| && Accepts(x, Variants(params)[c], v)
    requires forall i :: 0 <= i < |v.members| ==> Has(Props(Variants(params)[c]), v.members[i].0)
    ensures Accepts(x, Obj(r), v)
  {
    assert params == Obj(params.members);
    NothingIsLost(x, params.members, UnionKey(params.members), Variants(params), r, c, v);
  }

  /** Closed variants stay closed: a key that none of them declares is refused. */
  lemma ClosedStaysClosed(x: Other, m: Members, key: string, vs: seq<Json>, r: Members, v: Json, i: nat)
    requires vs != [] && (key == "anyOf" || key == "oneOf") && IsMerged(m, key, vs, r)
    requires AllClosed(vs) && v.Obj? && i < |v.members| && !SomeDeclares(vs, v.members[i].0)
    ensures !Accepts(x, Obj(r), v)
  {
    MergedMeans(x, m, key, vs, r, v);
  }

  /** Merging twice is merging once. */
  method MergeTwice(params: Json) returns (once: Json, twice: Json)
    requires params.Obj? ==> Unique(params.members)
    ensures twice == once
    ensures Mergeable(params) ==> once != params
  {
    once := ParametersMerged(params);
    twice := ParametersMerged(once);
  }
}
