/**
  `common_chat_tool_parameters_merged`: an object schema whose properties are named only
  inside `anyOf`/`oneOf` variants becomes one object schema that accepts what each variant
  accepts.
 */
module SchemaMerge {
  import opened Options

  type Members = seq<(string, Json)>

  datatype Json =
    | Null | Bool(b: bool) | Num(n: int) | Str(s: string)
    | Arr(items: seq<Json>) | Obj(members: Members)

  // --------------------------------------------------------------------- ordered objects

  predicate Has(m: Members, key: string) {
    m != [] && (m[0].0 == key || Has(m[1..], key))
  }

  function Get(m: Members, key: string): (v: Json)
    requires Has(m, key)
    ensures (key, v) in m
  {
    if m[0].0 == key then m[0].1 else Get(m[1..], key)
  }

  /** `m[key] = v`: in place, or at the end for a new key. */
  function Put(m: Members, key: string, v: Json): (r: Members)
    ensures forall e :: e in r ==> e in m || e == (key, v)
  {
    if m == [] then [(key, v)]
    else if m[0].0 == key then [(key, v)] + m[1..]
    else [m[0]] + Put(m[1..], key, v)
  }

  function Erase(m: Members, key: string): (r: Members)
    ensures forall e :: e in r <==> e in m && e.0 != key
  {
    if m == [] then []
    else if m[0].0 == key then Erase(m[1..], key)
    else [m[0]] + Erase(m[1..], key)
  }

  lemma {:induction false} PutGet(m: Members, key: string, v: Json, k: string)
    ensures Has(Put(m, key, v), k) <==> k == key || Has(m, k)
    ensures Has(Put(m, key, v), key) && Get(Put(m, key, v), key) == v
    ensures k != key && Has(m, k) ==> Get(Put(m, key, v), k) == Get(m, k)
  {
    if m != [] {
      PutGet(m[1..], key, v, k);
      assert Put(m, key, v)[1..] == if m[0].0 == key then m[1..] else Put(m[1..], key, v);
    }
  }

  lemma {:induction false} HasMember(m: Members, key: string)
    ensures Has(m, key) <==> exists v :: (key, v) in m
  {
    if m != [] {
      HasMember(m[1..], key);
      if Has(m[1..], key) {
        assert (key, Get(m, key)) in m;
      }
      assert forall e :: e in m <==> e == m[0] || e in m[1..];
      if Has(m, key) {
        assert (key, Get(m, key)) in m;
      }
    }
  }

  // -------------------------------------------------------------- what a schema accepts

  /** How the keywords that the merge does not look at are understood. */
  type Other = (string, Json, Json) -> bool

  ghost predicate Accepts(x: Other, schema: Json, v: Json)
    decreases schema, 1
  {
    match schema
    case Obj(m) => forall i :: 0 <= i < |m| ==> Keyword(x, schema, i, v)
    case Bool(b) => b
    case _ => x("", schema, v)
  }

  /** Whether `v` satisfies member `i` of an object schema.  The keywords that matter here
      have their JSON Schema meaning. */
  ghost predicate Keyword(x: Other, schema: Json, i: nat, v: Json)
    requires schema.Obj? && i < |schema.members|
    decreases schema, 0
  {
    var (name, value) := schema.members[i];
    if name == "type" then
      if value == Str("object") then v.Obj? else x(name, value, v)
    else if name == "properties" && value.Obj? then
      v.Obj? ==> forall j :: 0 <= j < |value.members| && Has(v.members, value.members[j].0) ==>
                   Accepts(x, value.members[j].1, Get(v.members, value.members[j].0))
    else if name == "required" && value.Arr? then
      v.Obj? ==> forall j :: 0 <= j < |value.items| && value.items[j].Str? ==> Has(v.members, value.items[j].s)
    else if name == "additionalProperties" then
      v.Obj? ==> forall j :: 0 <= j < |v.members| && !Declares(schema.members, v.members[j].0) ==> Accepts(x, value, v.members[j].1)
    else if name == "anyOf" && value.Arr? then
      exists j :: 0 <= j < |value.items| && Accepts(x, value.items[j], v)
    else if name == "oneOf" && value.Arr? then
      exists j :: 0 <= j < |value.items| && Accepts(x, value.items[j], v)
             && forall h :: 0 <= h < |value.items| && h != j ==> !Accepts(x, value.items[h], v)
    else x(name, value, v)
  }

  /** The schema names the property. */
  predicate Declares(m: Members, key: string) {
    Has(m, "properties") && Get(m, "properties").Obj? && Has(Get(m, "properties").members, key)
  }

  // ------------------------------------------------------------------- what is merged

  /** An object of the JSON library has every key once. */
  predicate Unique(m: Members) {
    m == [] || (!Has(m[1..], m[0].0) && Unique(m[1..]))
  }

  /** A variant that only an object can match and whose properties, if any, are an object. */
  predicate IsVariant(w: Json) {
    && w.Obj?
    && (Has(w.members, "type") ==> Get(w.members, "type") == Str("object"))
    && (Has(w.members, "properties") ==> Get(w.members, "properties").Obj?)
  }

  function UnionKey(m: Members): string {
    if Has(m, "anyOf") then "anyOf" else "oneOf"
  }

  predicate Mergeable(params: Json) {
    && params.Obj? && !Has(params.members, "properties")
    && Has(params.members, UnionKey(params.members))
    && Get(params.members, UnionKey(params.members)).Arr?
    && var vs := Get(params.members, UnionKey(params.members)).items;
    vs != [] && forall i :: 0 <= i < |vs| ==> IsVariant(vs[i])
  }

  function Variants(params: Json): (vs: seq<Json>)
    requires Mergeable(params)
    ensures vs != []
  {
    Get(params.members, UnionKey(params.members)).items
  }

  function Props(w: Json): Members {
    if w.Obj? && Has(w.members, "properties") && Get(w.members, "properties").Obj? then
      Get(w.members, "properties").members
    else []
  }

  function StringsOf(items: seq<Json>): (names: seq<string>)
    ensures forall n :: n in names <==> Str(n) in items
  {
    if items == [] then []
    else (if items[0].Str? then [items[0].s] else []) + StringsOf(items[1..])
  }

  /** The names a schema requires. */
  function Required(w: Json): seq<string> {
    if w.Obj? && Has(w.members, "required") && Get(w.members, "required").Arr? then
      StringsOf(Get(w.members, "required").items)
    else []
  }

  predicate IsClosed(w: Json) {
    w.Obj? && Has(w.members, "additionalProperties") && Get(w.members, "additionalProperties") == Bool(false)
  }

  /** Some variant declares property `k` as `d`. */
  predicate Declared(vs: seq<Json>, k: string, d: Json)
  {
    exists i :: 0 <= i < |vs| && (k, d) in Props(vs[i])
  }

  predicate AllRequire(vs: seq<Json>, n: string)
  {
    forall i :: 0 <= i < |vs| ==> n in Required(vs[i])
  }

  predicate AllClosed(vs: seq<Json>)
  {
    forall i :: 0 <= i < |vs| ==> IsClosed(vs[i])
  }

  // ------------------------------------------------------------------- first-seen order

  /** The distinct elements, each where it is first met. */
  function FirstSeen<T(==, !new)>(s: seq<T>): (r: seq<T>)
    ensures forall e :: e in r <==> e in s
    ensures forall i, j :: 0 <= i < j < |r| ==> r[i] != r[j]
  {
    if s == [] then []
    else
      var r := FirstSeen(s[..|s| - 1]);
      if s[|s| - 1] in r then r else r + [s[|s| - 1]]
  }

  lemma OneMoreSeen<T(!new)>(s: seq<T>, e: T)
    ensures FirstSeen(s + [e]) == if e in s then FirstSeen(s) else FirstSeen(s) + [e]
  {
    assert (s + [e])[..|s|] == s;
  }

  function Names<V>(m: seq<(string, V)>): (r: seq<string>)
    ensures |r| == |m| && forall i :: 0 <= i < |m| ==> r[i] == m[i].0
  {
    seq(|m|, i requires 0 <= i < |m| => m[i].0)
  }

  /** Every declaration of property `k`, in order. */
  function ValuesOf(m: Members, k: string): (r: seq<Json>)
    ensures forall d :: d in r <==> (k, d) in m
  {
    if m == [] then []
    else ValuesOf(m[..|m| - 1], k) + if m[|m| - 1].0 == k then [m[|m| - 1].1] else []
  }

  lemma OneMoreValue(m: Members, e: (string, Json), k: string)
    ensures ValuesOf(m + [e], k) == if e.0 == k then ValuesOf(m, k) + [e.1] else ValuesOf(m, k)
  {
    assert (m + [e])[..|m|] == m;
  }

  /** The properties of all variants, one after the other. */
  function AllProps(vs: seq<Json>): (r: Members)
    ensures forall k, d :: (k, d) in r <==> Declared(vs, k, d)
  {
    if vs == [] then []
    else
      var less := vs[..|vs| - 1];
      var r := AllProps(less) + Props(vs[|vs| - 1]);
      assert forall k, d :: (k, d) in r <==> Declared(vs, k, d) by {
        assert vs[..|vs|] == vs;
        OneMoreDeclared(vs, |vs| - 1);
      }
      r
  }

  // --------------------------------------------------------------------- the declarations

  /** The distinct declarations of every property. */
  type Declarations = seq<(string, seq<Json>)>

  /** `ds` lists the declarations in `flat`, properties and alternatives in first-seen order. */
  predicate Lists(ds: Declarations, flat: Members) {
    Names(ds) == FirstSeen(Names(flat)) && Collects(ds, flat)
  }

  predicate Collects(ds: Declarations, flat: Members) {
    forall i :: 0 <= i < |ds| ==> ds[i].1 == FirstSeen(ValuesOf(flat, ds[i].0))
  }

  method Declare(ds: Declarations, k: string, d: Json, ghost flat: Members) returns (r: Declarations)
    requires Lists(ds, flat)
    ensures Lists(r, flat + [(k, d)])
  {
    for i := 0 to |ds|
      invariant forall j :: 0 <= j < i ==> ds[j].0 != k
    {
      if ds[i].0 == k {
        DeclareKnown(ds, flat, i, d);
        if d in ds[i].1 {
          return ds;
        }
        return ds[i := (k, ds[i].1 + [d])];
      }
    }
    DeclareNew(ds, flat, k, d);
    r := ds + [(k, [d])];
  }

  lemma NamesAppend<V>(flat: seq<(string, V)>, k: string, v: V)
    ensures Names(flat + [(k, v)]) == Names(flat) + [k]
  {
  }

  lemma OneMoreName(flat: Members, k: string, d: Json)
    ensures FirstSeen(Names(flat + [(k, d)])) == if k in Names(flat) then FirstSeen(Names(flat)) else FirstSeen(Names(flat)) + [k]
  {
    NamesAppend(flat, k, d);
    OneMoreSeen(Names(flat), k);
  }

  lemma OneMoreFor(flat: Members, k: string, d: Json, n: string)
    ensures n != k ==> ValuesOf(flat + [(k, d)], n) == ValuesOf(flat, n)
    ensures n == k ==> FirstSeen(ValuesOf(flat + [(k, d)], n)) ==
                       if d in ValuesOf(flat, k) then FirstSeen(ValuesOf(flat, k)) else FirstSeen(ValuesOf(flat, k)) + [d]
  {
    OneMoreValue(flat, (k, d), n);
    OneMoreSeen(ValuesOf(flat, k), d);
  }

  lemma OneEntry(ds: Declarations, flat: Members, i: nat, j: nat)
    requires Lists(ds, flat) && i < |ds| && j < |ds| && i != j
    ensures ds[i].0 != ds[j].0
  {
    OnlyOnce(Names(flat), Names(ds), i);
    assert Names(ds)[j] == ds[j].0 && Names(ds)[i] == ds[i].0;
  }

  lemma OtherEntry(ds: Declarations, flat: Members, k: string, d: Json, j: nat)
    requires Lists(ds, flat) && j < |ds| && ds[j].0 != k
    ensures ds[j].1 == FirstSeen(ValuesOf(flat + [(k, d)], ds[j].0))
  {
    OneMoreFor(flat, k, d, ds[j].0);
  }

  lemma KnownName(ds: Declarations, flat: Members, i: nat, d: Json, e: (string, seq<Json>))
    requires Lists(ds, flat) && i < |ds| && e.0 == ds[i].0
    ensures Names(ds[i := e]) == FirstSeen(Names(flat + [(e.0, d)]))
  {
    assert e.0 == Names(ds)[i];
    OneMoreName(flat, e.0, d);
    assert Names(ds[i := e]) == Names(ds);
  }

  lemma DeclareKnown(ds: Declarations, flat: Members, i: nat, d: Json)
    requires Lists(ds, flat) && i < |ds|
    ensures var e := (ds[i].0, if d in ds[i].1 then ds[i].1 else ds[i].1 + [d]);
            Lists(ds[i := e], flat + [(ds[i].0, d)])
    ensures d in ds[i].1 ==> Lists(ds, flat + [(ds[i].0, d)])
  {
    var k := ds[i].0;
    var r := ds[i := (k, if d in ds[i].1 then ds[i].1 else ds[i].1 + [d])];
    KnownName(ds, flat, i, d, r[i]);
    forall j | 0 <= j < |ds|
      ensures r[j].1 == FirstSeen(ValuesOf(flat + [(k, d)], r[j].0))
    {
      if j == i {
        OneMoreFor(flat, k, d, k);
      } else {
        OneEntry(ds, flat, i, j);
        OtherEntry(ds, flat, k, d, j);
      }
    }
    if d in ds[i].1 {
      assert r == ds;
    }
  }

  lemma FirstEntry(flat: Members, k: string, d: Json)
    requires ValuesOf(flat, k) == []
    ensures [d] == FirstSeen(ValuesOf(flat + [(k, d)], k))
  {
    OneMoreFor(flat, k, d, k);
  }

  lemma NewNames(ds: Declarations, flat: Members, k: string, d: Json)
    requires Lists(ds, flat) && k !in Names(flat)
    ensures Names(ds + [(k, [d])]) == FirstSeen(Names(flat + [(k, d)]))
  {
    OneMoreName(flat, k, d);
    NamesAppend(ds, k, [d]);
  }

  lemma EarlierEntries(ds: Declarations, flat: Members, k: string, d: Json)
    requires Lists(ds, flat) && forall j :: 0 <= j < |ds| ==> ds[j].0 != k
    ensures Collects(ds, flat + [(k, d)])
  {
    forall j | 0 <= j < |ds|
      ensures ds[j].1 == FirstSeen(ValuesOf(flat + [(k, d)], ds[j].0))
    {
      OtherEntry(ds, flat, k, d, j);
    }
  }

  lemma OneMoreEntry(ds: Declarations, flat: Members, k: string, values: seq<Json>)
    requires Collects(ds, flat) && values == FirstSeen(ValuesOf(flat, k))
    ensures Collects(ds + [(k, values)], flat)
  {
  }

  lemma DeclareNew(ds: Declarations, flat: Members, k: string, d: Json)
    requires Lists(ds, flat) && forall j :: 0 <= j < |ds| ==> ds[j].0 != k
    ensures Lists(ds + [(k, [d])], flat + [(k, d)])
  {
    NewName(ds, flat, k);
    NewNames(ds, flat, k, d);
    FirstEntry(flat, k, d);
    EarlierEntries(ds, flat, k, d);
    OneMoreEntry(ds, flat + [(k, d)], k, [d]);
  }

  lemma OnlyOnce(names: seq<string>, seen: seq<string>, i: nat)
    requires seen == FirstSeen(names) && i < |seen|
    ensures forall j :: 0 <= j < |seen| && j != i ==> seen[j] != seen[i]
  {
  }

  lemma NewName(ds: Declarations, flat: Members, k: string)
    requires Lists(ds, flat) && forall j :: 0 <= j < |ds| ==> ds[j].0 != k
    ensures k !in Names(flat) && ValuesOf(flat, k) == []
  {
    assert k !in Names(ds);
    NoValue(flat, k);
  }

  lemma NoValue(flat: Members, k: string)
    requires k !in Names(flat)
    ensures ValuesOf(flat, k) == []
  {
    forall d
      ensures (k, d) !in flat
    {
      assert forall i :: 0 <= i < |flat| ==> Names(flat)[i] == flat[i].0;
    }
    assert forall d :: d !in ValuesOf(flat, k);
  }

  method DeclareAll(ds: Declarations, props: Members, ghost flat: Members) returns (r: Declarations)
    requires Lists(ds, flat)
    ensures Lists(r, flat + props)
  {
    r := ds;
    assert flat + props[..0] == flat;
    for i := 0 to |props|
      invariant Lists(r, flat + props[..i])
    {
      r := Declare(r, props[i].0, props[i].1, flat + props[..i]);
      assert flat + props[..i] + [(props[i].0, props[i].1)] == flat + props[..i + 1];
    }
    assert props[..|props|] == props;
  }

  /** The names of `common` that `own` has too, in the order of `common`. */
  function Kept(common: seq<string>, own: seq<string>): (kept: seq<string>)
    ensures forall n :: n in kept <==> n in common && n in own
  {
    if common == [] then []
    else
      var last := common[|common| - 1];
      Kept(common[..|common| - 1], own) + if last in own then [last] else []
  }

  /** The names every variant requires, in the order of the first. */
  function CommonNames(vs: seq<Json>): (names: seq<string>)
    requires vs != []
    ensures forall n :: n in names <==> AllRequire(vs, n)
  {
    if |vs| == 1 then Required(vs[0])
    else
      var r := Kept(CommonNames(vs[..|vs| - 1]), Required(vs[|vs| - 1]));
      assert forall n :: n in r <==> AllRequire(vs, n) by {
        assert vs[..|vs|] == vs;
        forall n ensures n in r <==> AllRequire(vs, n) { OneMoreRequires(vs, |vs| - 1, n); }
      }
      r
  }

  method Keep(common: seq<string>, own: seq<string>) returns (kept: seq<string>)
    ensures kept == Kept(common, own)
  {
    kept := [];
    for i := 0 to |common|
      invariant kept == Kept(common[..i], own)
    {
      if common[i] in own {
        kept := kept + [common[i]];
      }
      assert common[..i + 1][..i] == common[..i];
    }
    assert common[..|common|] == common;
  }

  /** The loop over the variants. */
  method Survey(vs: seq<Json>) returns (ds: Declarations, common: seq<string>, closed: bool)
    requires vs != []
    ensures Lists(ds, AllProps(vs))
    ensures common == CommonNames(vs)
    ensures closed <==> AllClosed(vs)
  {
    ds, common, closed := [], [], true;
    var first := true;
    for i := 0 to |vs|
      invariant first <==> i == 0
      invariant Lists(ds, AllProps(vs[..i]))
      invariant i > 0 ==> common == CommonNames(vs[..i])
      invariant closed <==> AllClosed(vs[..i])
    {
      var w := vs[i];
      assert vs[..i + 1][..i] == vs[..i];
      ds := DeclareAll(ds, Props(w), AllProps(vs[..i]));
      var own := Required(w);
      if first {
        common := own;
        first := false;
      } else {
        common := Keep(common, own);
      }
      closed := closed && IsClosed(w);
      OneMoreClosed(vs, i);
    }
    assert vs[..|vs|] == vs;
  }

  lemma OneMoreDeclared(vs: seq<Json>, i: nat)
    requires i < |vs|
    ensures forall n, e :: Declared(vs[..i + 1], n, e) <==> Declared(vs[..i], n, e) || (n, e) in Props(vs[i])
  {
    var less, more := vs[..i], vs[..i + 1];
    forall n, e
      ensures Declared(more, n, e) <==> Declared(less, n, e) || (n, e) in Props(vs[i])
    {
      if Declared(less, n, e) {
        var j :| 0 <= j < i && (n, e) in Props(less[j]);
        assert (n, e) in Props(more[j]);
      }
      if (n, e) in Props(vs[i]) {
        assert (n, e) in Props(more[i]);
      }
      if Declared(more, n, e) {
        var j :| 0 <= j < i + 1 && (n, e) in Props(more[j]);
        assert j < i ==> (n, e) in Props(less[j]);
      }
    }
  }

  lemma OneMoreRequires(vs: seq<Json>, i: nat, n: string)
    requires i < |vs|
    ensures AllRequire(vs[..i + 1], n) <==> AllRequire(vs[..i], n) && n in Required(vs[i])
  {
    var less, more := vs[..i], vs[..i + 1];
    assert more[i] == vs[i] && forall j :: 0 <= j < i ==> more[j] == less[j];
  }

  lemma OneMoreClosed(vs: seq<Json>, i: nat)
    requires i < |vs|
    ensures AllClosed(vs[..i + 1]) <==> AllClosed(vs[..i]) && IsClosed(vs[i])
  {
    var less, more := vs[..i], vs[..i + 1];
    assert more[i] == vs[i] && forall j :: 0 <= j < i ==> more[j] == less[j];
  }

  // ------------------------------------------------------------------------ the result

  /** One declaration stands alone; several become the alternatives of an `anyOf`. */
  function Alternatives(ds: seq<Json>): Json
    requires ds != []
  {
    if |ds| == 1 then ds[0] else Obj([("anyOf", Arr(ds))])
  }

  /** Every property of any variant, once, with all its declarations. */
  predicate PropsMerged(ps: Members, vs: seq<Json>) {
    && Names(ps) == FirstSeen(Names(AllProps(vs)))
    && forall i :: 0 <= i < |ps| ==>
         var ds := FirstSeen(ValuesOf(AllProps(vs), ps[i].0));
         ds != [] && ps[i].1 == Alternatives(ds)
  }

  predicate IsSpecial(k: string, key: string) {
    k == key || k == "type" || k == "properties" || k == "required" || k == "additionalProperties"
  }

  function Strings(names: seq<string>): (items: seq<Json>)
    ensures |items| == |names| && forall i :: 0 <= i < |names| ==> items[i] == Str(names[i])
  {
    seq(|names|, i requires 0 <= i < |names| => Str(names[i]))
  }

  /** The names the outer schema requires, then those every variant requires. */
  predicate NamesMerged(names: seq<Json>, m: Members, vs: seq<Json>)
    requires vs != []
  {
    names == Strings(FirstSeen(Required(Obj(m)) + CommonNames(vs)))
  }

  /** What the merged schema must be, for the members of the outer schema, the keyword of the
      variants and the variants. */
  ghost predicate IsMerged(m: Members, key: string, vs: seq<Json>, r: Members)
    requires vs != []
  {
    && Unique(r) && !Has(r, key)
    && (forall e: (string, Json) :: !IsSpecial(e.0, key) ==> (e in r <==> e in m))
    && Has(r, "type") && Get(r, "type") == Str("object")
    && Has(r, "properties") && Get(r, "properties").Obj? && PropsMerged(Get(r, "properties").members, vs)
    && Has(r, "required") && Get(r, "required").Arr? && NamesMerged(Get(r, "required").items, m, vs)
    && (AllClosed(vs) ==> IsClosed(Obj(r)))
    && (!AllClosed(vs) ==> forall v :: ("additionalProperties", v) in r <==> ("additionalProperties", v) in m)
  }

  lemma {:induction false} PutMembers(m: Members, key: string, v: Json)
    requires Unique(m)
    ensures Unique(Put(m, key, v))
    ensures forall e :: e in Put(m, key, v) <==> (e in m && e.0 != key) || e == (key, v)
  {
    if m != [] {
      var first, rest := m[0], m[1..];
      assert forall e :: e in m <==> e == first || e in rest;
      PutMembers(rest, key, v);
      PutGet(rest, key, v, first.0);
      assert Put(m, key, v)[1..] == if first.0 == key then rest else Put(rest, key, v);
      if first.0 == key {
        NotInRest(rest, key);
      }
    }
  }

  lemma NotInRest(rest: Members, key: string)
    requires !Has(rest, key)
    ensures forall e :: e in rest ==> e.0 != key
  {
    HasMember(rest, key);
  }

  lemma {:induction false} EraseMembers(m: Members, key: string)
    requires Unique(m)
    ensures Unique(Erase(m, key)) && !Has(Erase(m, key), key)
  {
    HasMember(Erase(m, key), key);
    if m != [] {
      EraseMembers(m[1..], key);
      HasMember(m[1..], m[0].0);
      HasMember(Erase(m[1..], key), m[0].0);
    }
  }

  lemma {:induction false} UniqueGet(m: Members, key: string, v: Json)
    requires Unique(m) && (key, v) in m
    ensures Has(m, key) && Get(m, key) == v
  {
    HasMember(m, key);
    if m[0] != (key, v) {
      assert (key, v) in m[1..];
      UniqueGet(m[1..], key, v);
    }
  }

  method PropertiesOf(ds: Declarations) returns (ps: Members)
    requires forall j :: 0 <= j < |ds| ==> ds[j].1 != []
    ensures |ps| == |ds| && forall j :: 0 <= j < |ds| ==> ps[j] == (ds[j].0, Alternatives(ds[j].1))
  {
    ps := [];
    for i := 0 to |ds|
      invariant |ps| == i && forall j :: 0 <= j < i ==> ps[j] == (ds[j].0, Alternatives(ds[j].1))
    {
      if |ds[i].1| == 1 {
        ps := ps + [(ds[i].0, ds[i].1[0])];
      } else {
        ps := ps + [(ds[i].0, Obj([("anyOf", Arr(ds[i].1))]))];
      }
    }
  }

  lemma ListedAreMerged(ds: Declarations, ps: Members, vs: seq<Json>)
    requires Lists(ds, AllProps(vs)) && |ps| == |ds|
    requires forall j :: 0 <= j < |ds| ==> ds[j].1 != [] && ps[j] == (ds[j].0, Alternatives(ds[j].1))
    ensures PropsMerged(ps, vs)
  {
    assert Names(ps) == Names(ds);
    forall i | 0 <= i < |ps|
      ensures ds[i].1 == FirstSeen(ValuesOf(AllProps(vs), ps[i].0))
    {
      assert ps[i].0 == ds[i].0;
    }
  }

  lemma HasValue(ds: Declarations, flat: Members, i: nat)
    requires Lists(ds, flat) && i < |ds|
    ensures ds[i].1 != []
  {
    assert Names(ds)[i] in Names(flat);
    var j :| 0 <= j < |flat| && Names(flat)[j] == ds[i].0;
    assert (ds[i].0, flat[j].1) == flat[j];
    assert flat[j].1 in ValuesOf(flat, ds[i].0);
  }

  lemma TakeOneMore(all: seq<string>, names: seq<string>, i: nat)
    requires i < |names|
    ensures all + names[..i + 1] == (all + names[..i]) + [names[i]]
  {
  }

  lemma NextSeen(all: seq<string>, names: seq<string>, i: nat)
    requires i < |names|
    ensures var seen := FirstSeen(all + names[..i]);
            FirstSeen(all + names[..i + 1]) == if names[i] in seen then seen else seen + [names[i]]
  {
    OneMoreSeen(all + names[..i], names[i]);
    TakeOneMore(all, names, i);
  }

  /** Adds the names that are not there yet. */
  method AddRequired(before: seq<string>, names: seq<string>, ghost all: seq<string>) returns (r: seq<string>)
    requires before == FirstSeen(all)
    ensures r == FirstSeen(all + names)
  {
    r := before;
    assert all + names[..0] == all;
    for i := 0 to |names|
      invariant r == FirstSeen(all + names[..i])
    {
      NextSeen(all, names, i);
      if names[i] !in r {
        r := r + [names[i]];
      }
    }
    assert names[..|names|] == names;
  }

  ghost predicate IsAssembled(m: Members, key: string, ps: Members, required: seq<Json>, closed: bool, r: Members) {
    && Unique(r)
    && forall e :: e in r <==>
         || (e in m && !IsSpecial(e.0, key))
         || (e in m && e.0 == "additionalProperties" && !closed)
         || (closed && e == ("additionalProperties", Bool(false)))
         || e == ("type", Str("object")) || e == ("properties", Obj(ps)) || e == ("required", Arr(required))
  }

  /** Erasing one key and setting four, for any five distinct keys. */
  lemma EraseAndPut(m: Members, key: string, k1: string, v1: Json, k2: string, v2: Json, k3: string, v3: Json)
    requires Unique(m) && key != k1 && key != k2 && key != k3 && k1 != k2 && k1 != k3 && k2 != k3
    ensures var r := Put(Put(Put(Erase(m, key), k1, v1), k2, v2), k3, v3);
            && Unique(r)
            && forall e :: e in r <==>
                 (e in m && e.0 != key && e.0 != k1 && e.0 != k2 && e.0 != k3) || e == (k1, v1) || e == (k2, v2) || e == (k3, v3)
  {
    EraseMembers(m, key);
    var a := Erase(m, key);
    PutMembers(a, k1, v1);
    var b := Put(a, k1, v1);
    PutMembers(b, k2, v2);
    var c := Put(b, k2, v2);
    PutMembers(c, k3, v3);
  }

  lemma KeywordsDiffer(key: string)
    requires key == "anyOf" || key == "oneOf"
    ensures key != "type" && key != "properties" && key != "required" && key != "additionalProperties"
    ensures "type" != "properties" && "type" != "required" && "properties" != "required"
    ensures "additionalProperties" != "type" && "additionalProperties" != "properties" && "additionalProperties" != "required"
  {
    assert |"type"| == 4 && |"properties"| == 10 && |"required"| == 8 && |"additionalProperties"| == 20 && |key| == 5;
  }

  function AddName(names: seq<string>, k: string): seq<string> {
    if k in names then names else names + [k]
  }

  function Without(names: seq<string>, k: string): seq<string> {
    if names == [] then []
    else if names[0] == k then Without(names[1..], k)
    else [names[0]] + Without(names[1..], k)
  }

  lemma {:induction false} PutNames(m: Members, k: string, v: Json)
    ensures Names(Put(m, k, v)) == AddName(Names(m), k)
  {
    if m == [] {
      assert Names(m) == [];
    } else {
      PutNames(m[1..], k, v);
      NamesCons(m);
      NamesCons(Put(m, k, v));
      AddNameCons(m[0].0, Names(m[1..]), k);
    }
  }

  lemma NamesCons(m: Members)
    requires m != []
    ensures Names(m) == [m[0].0] + Names(m[1..])
  {
  }

  lemma AddNameCons(n: string, names: seq<string>, k: string)
    ensures AddName([n] + names, k) == if n == k then [n] + names else [n] + AddName(names, k)
  {
    assert k in [n] + names <==> n == k || k in names;
    assert [n] + names + [k] == [n] + (names + [k]);
  }

  lemma {:induction false} EraseNames(m: Members, k: string)
    ensures Names(Erase(m, k)) == Without(Names(m), k)
  {
    if m == [] {
      assert Names(m) == [];
    } else {
      EraseNames(m[1..], k);
      NamesCons(m);
      assert Names(m)[1..] == Names(m[1..]);
      if m[0].0 != k {
        NamesCons(Erase(m, k));
        assert Erase(m, k)[1..] == Erase(m[1..], k);
      }
    }
  }

  /** The entries of the merged schema in order: those of the outer schema without the union
      keyword, and those that the merge sets behind them unless they are there already. */
  function MergedOrder(names: seq<string>, key: string, closed: bool): seq<string> {
    var order := AddName(AddName(AddName(Without(names, key), "type"), "properties"), "required");
    if closed then AddName(order, "additionalProperties") else order
  }

  function Lookup(w: Json, key: string): (v: Option<Json>) {
    if w.Obj? && Has(w.members, key) then Some(Get(w.members, key)) else None
  }

  /** A schema with no properties of its own and a list of object variants under `key`. */
  predicate IsUnion(params: Json, key: string) {
    && params.Obj? && Lookup(params, "properties").None?
    && Lookup(params, key).Some? && Lookup(params, key).value.Arr? && Lookup(params, key).value.items != []
    && forall w :: w in Lookup(params, key).value.items ==>
         && w.Obj?
         && (Lookup(w, "type").None? || Lookup(w, "type") == Some(Str("object")))
         && (Lookup(w, "properties").None? || Lookup(w, "properties").value.Obj?)
  }

  /** Which schemas are merged, and under which keyword: `anyOf` if there is one, else `oneOf`. */
  lemma MergesUnions(params: Json)
    ensures Mergeable(params) <==>
            if Lookup(params, "anyOf").Some? then IsUnion(params, "anyOf") else IsUnion(params, "oneOf")
    ensures Mergeable(params) ==>
              UnionKey(params.members) == if Lookup(params, "anyOf").Some? then "anyOf" else "oneOf"
  {
    if params.Obj? {
      var key := if Has(params.members, "anyOf") then "anyOf" else "oneOf";
      if Has(params.members, key) && Get(params.members, key).Arr? {
        var vs := Get(params.members, key).items;
        assert forall i :: 0 <= i < |vs| ==> vs[i] in vs;
      }
    }
  }

  /** The result in terms of the keywords: the union under `anyOf` is replaced by properties and
      a `oneOf` beside it stays; without `anyOf` the union under `oneOf` is replaced; every
      other schema is returned as it is. */
  predicate ReplacesUnion(params: Json, r: Json) {
    if IsUnion(params, "anyOf") then
      Lookup(r, "properties").Some? && Lookup(r, "anyOf").None? && Lookup(r, "oneOf") == Lookup(params, "oneOf")
    else if Lookup(params, "anyOf").None? && IsUnion(params, "oneOf") then
      Lookup(r, "properties").Some? && Lookup(r, "oneOf").None?
    else r == params
  }

  lemma OtherKept(m: Members, key: string, vs: seq<Json>, r: Members, other: string)
    requires vs != [] && IsMerged(m, key, vs, r) && Unique(m) && !IsSpecial(other, key)
    ensures Lookup(Obj(r), other) == Lookup(Obj(m), other)
  {
    HasMember(r, other);
    HasMember(m, other);
    if Has(m, other) {
      UniqueGet(r, other, Get(m, other));
    }
  }

  lemma NotReplaced(params: Json)
    ensures !Mergeable(params) ==> ReplacesUnion(params, params)
  {
    MergesUnions(params);
  }

  lemma Replaced(params: Json, r: Json)
    requires Mergeable(params) && Unique(params.members) && r.Obj?
    requires IsMerged(params.members, UnionKey(params.members), Variants(params), r.members)
    ensures ReplacesUnion(params, r)
  {
    MergesUnions(params);
    assert Obj(r.members) == r && Obj(params.members) == params;
    KeywordsDiffer("oneOf");
    KeywordsDiffer("anyOf");
    if UnionKey(params.members) == "anyOf" {
      assert "oneOf"[0] != "anyOf"[0];
      OtherKept(params.members, "anyOf", Variants(params), r.members, "oneOf");
    }
  }

  method ParametersMerged(params: Json) returns (r: Json)
    requires params.Obj? ==> Unique(params.members)
    ensures ReplacesUnion(params, r)
    ensures !Mergeable(params) ==> r == params
    ensures Mergeable(params) ==> r.Obj? && IsMerged(params.members, UnionKey(params.members), Variants(params), r.members)
    ensures Mergeable(params) ==> Names(r.members) == MergedOrder(Names(params.members), UnionKey(params.members), AllClosed(Variants(params)))
  {
    NotReplaced(params);
    if !params.Obj? || Has(params.members, "properties") {
      return params;
    }
    var m, key := params.members, UnionKey(params.members);
    if !Has(m, key) || !Get(m, key).Arr? || Get(m, key).items == [] {
      return params;
    }
    var vs := Get(m, key).items;
    for i := 0 to |vs|
      invariant forall j :: 0 <= j < i ==> IsVariant(vs[j])
    {
      if !IsVariant(vs[i]) {
        return params;
      }
    }
    var ds, common, closed := Survey(vs);
    forall i | 0 <= i < |ds|
      ensures ds[i].1 != []
    {
      HasValue(ds, AllProps(vs), i);
    }
    var ps := PropertiesOf(ds);
    ListedAreMerged(ds, ps, vs);
    var names := AddRequired([], Required(params), []);
    assert [] + Required(params) == Required(params);
    names := AddRequired(names, common, Required(params));
    var required := Strings(names);
    var merged := Assemble(m, key, ps, required, closed);
    AssembledIsMerged(m, key, vs, ps, required, closed, merged);
    r := Obj(merged);
    Replaced(params, r);
  }

  method Assemble(m: Members, key: string, ps: Members, required: seq<Json>, closed: bool) returns (merged: Members)
    requires Unique(m) && (key == "anyOf" || key == "oneOf")
    ensures IsAssembled(m, key, ps, required, closed, merged)
    ensures Names(merged) == MergedOrder(Names(m), key, closed)
  {
    KeywordsDiffer(key);
    EraseAndPut(m, key, "type", Str("object"), "properties", Obj(ps), "required", Arr(required));
    EraseNames(m, key);
    merged := Erase(m, key);
    PutNames(merged, "type", Str("object"));
    merged := Put(merged, "type", Str("object"));
    PutNames(merged, "properties", Obj(ps));
    merged := Put(merged, "properties", Obj(ps));
    PutNames(merged, "required", Arr(required));
    merged := Put(merged, "required", Arr(required));
    if closed {
      PutNames(merged, "additionalProperties", Bool(false));
      PutMembers(merged, "additionalProperties", Bool(false));
      merged := Put(merged, "additionalProperties", Bool(false));
    }
  }

  lemma AssembledIsMerged(m: Members, key: string, vs: seq<Json>, ps: Members, required: seq<Json>, closed: bool, r: Members)
    requires IsAssembled(m, key, ps, required, closed, r) && (key == "anyOf" || key == "oneOf") && vs != []
    requires PropsMerged(ps, vs) && (closed <==> AllClosed(vs)) && NamesMerged(required, m, vs)
    ensures IsMerged(m, key, vs, r)
  {
    EntriesSet(m, key, ps, required, closed, r);
    OthersKept(m, key, ps, required, closed, r);
  }

  lemma EntriesSet(m: Members, key: string, ps: Members, required: seq<Json>, closed: bool, r: Members)
    requires IsAssembled(m, key, ps, required, closed, r)
    ensures Has(r, "type") && Get(r, "type") == Str("object")
    ensures Has(r, "properties") && Get(r, "properties") == Obj(ps)
    ensures Has(r, "required") && Get(r, "required") == Arr(required)
    ensures closed ==> IsClosed(Obj(r))
  {
    UniqueGet(r, "type", Str("object"));
    UniqueGet(r, "properties", Obj(ps));
    UniqueGet(r, "required", Arr(required));
    if closed {
      UniqueGet(r, "additionalProperties", Bool(false));
    }
  }

  lemma OthersKept(m: Members, key: string, ps: Members, required: seq<Json>, closed: bool, r: Members)
    requires IsAssembled(m, key, ps, required, closed, r) && (key == "anyOf" || key == "oneOf")
    ensures forall e: (string, Json) :: !IsSpecial(e.0, key) ==> (e in r <==> e in m)
    ensures !closed ==> forall v :: ("additionalProperties", v) in r <==> ("additionalProperties", v) in m
    ensures !Has(r, key)
  {
    KeywordsDiffer(key);
    HasMember(r, key);
  }
}
