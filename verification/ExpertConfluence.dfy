/**
  The order in which weights and scales arrive does not matter: the state after any part of
  the stream is determined by what has arrived, except that a scale stays behind for every
  non-expert pair whose weight came first.
 */
module ExpertConfluence {
  import opened Options
  import opened ExpertStream

  /** The tensors of the checkpoint, by weight name. */
  datatype Checkpoint<!W, !S> = Checkpoint(weightOf: Name -> W, scaleOf: Name -> S)

  /** What has arrived so far; `late` are the non-expert names whose weight came before the scale. */
  datatype Arrived = Arrived(weights: set<Name>, scales: set<Name>, late: set<Name>)

  function Add<W, S>(a: Arrived, m: Message<W, S>): Arrived {
    match m
    case Weight(n, _) => a.(weights := a.weights + {n})
    case Scale(n, _) => a.(scales := a.scales + {n}, late := if n.Other? && n in a.weights then a.late + {n} else a.late)
  }

  function ArrivedIn<W, S>(log: seq<Message<W, S>>): Arrived {
    if log == [] then Arrived({}, {}, {}) else Add(ArrivedIn(log[..|log| - 1]), log[|log| - 1])
  }

  predicate HasScale<W, S, P>(c: Config<W, S, P>, n: Name) {
    n.Expert? || n.name in c.expected
  }

  /** The next message is a tensor of the checkpoint that has not arrived yet. */
  ghost predicate Next<W, S, P>(c: Config<W, S, P>, k: Checkpoint<W, S>, a: Arrived, m: Message<W, S>) {
    && (m.n.Expert? ==> m.n.eid < c.nExperts)
    && (m.Weight? ==> m.weight == k.weightOf(m.n) && m.n !in a.weights)
    && (m.Scale? ==> m.scale == k.scaleOf(m.n) && m.n !in a.scales && HasScale(c, m.n))
  }

  ghost predicate Stream<W, S, P>(c: Config<W, S, P>, k: Checkpoint<W, S>, log: seq<Message<W, S>>) {
    log == [] || (Stream(c, k, log[..|log| - 1]) && Next(c, k, ArrivedIn(log[..|log| - 1]), log[|log| - 1]))
  }

  // ------------------------------------------------------- the state as a function of what arrived

  predicate Ready(a: Arrived, g: Group, e: nat) {
    Expert(g.layer, g.proj, e) in a.weights && Expert(g.layer, g.proj, e) in a.scales
  }

  predicate Complete(n: nat, a: Arrived, g: Group) {
    forall e :: 0 <= e < n ==> Ready(a, g, e)
  }

  /** Weight e combined with scale e. */
  function Slice<W, S, P>(c: Config<W, S, P>, k: Checkpoint<W, S>, g: Group, e: nat): P {
    var n := Expert(g.layer, g.proj, e);
    c.pack(k.weightOf(n), k.scaleOf(n))
  }

  ghost predicate PendingMatches<W, S, P>(c: Config<W, S, P>, k: Checkpoint<W, S>, a: Arrived, pending: map<Name, W>) {
    forall n :: (n in pending <==> n in a.weights && n !in a.scales && HasScale(c, n)) && (n in pending ==> pending[n] == k.weightOf(n))
  }

  ghost predicate ScalesMatch<W, S>(k: Checkpoint<W, S>, a: Arrived, scales: map<Name, S>) {
    forall n :: (n in scales <==> (n in a.scales && n !in a.weights) || n in a.late) && (n in scales ==> scales[n] == k.scaleOf(n))
  }

  ghost predicate GroupMatches<W, S, P>(c: Config<W, S, P>, k: Checkpoint<W, S>, a: Arrived, g: Group, group: map<nat, P>) {
    forall e: nat :: (e in group <==> e < c.nExperts && Ready(a, g, e)) && (e in group ==> group[e] == Slice(c, k, g, e))
  }

  ghost predicate Started<W, S, P>(c: Config<W, S, P>, a: Arrived, g: Group) {
    exists e :: 0 <= e < c.nExperts && Ready(a, g, e)
  }

  ghost predicate ExpertsMatch<W, S, P>(c: Config<W, S, P>, k: Checkpoint<W, S>, a: Arrived, experts: map<Group, map<nat, P>>) {
    forall g :: (g in experts <==> Started(c, a, g) && !Complete(c.nExperts, a, g)) && (g in experts ==> GroupMatches(c, k, a, g, experts[g]))
  }

  ghost predicate IsStack<W, S, P>(c: Config<W, S, P>, k: Checkpoint<W, S>, t: Stack<P>) {
    |t.slices| == c.nExperts && forall e :: 0 <= e < c.nExperts ==> t.slices[e] == Slice(c, k, t.group, e)
  }

  /** Exactly one stack for every complete group, and it holds the right slices. */
  ghost predicate WrittenMatches<W, S, P>(c: Config<W, S, P>, k: Checkpoint<W, S>, a: Arrived, written: seq<Stack<P>>) {
    && (forall i :: 0 <= i < |written| ==> Complete(c.nExperts, a, written[i].group) && IsStack(c, k, written[i]))
    && (forall i, j :: 0 <= i < j < |written| ==> written[i].group != written[j].group)
    && (forall g :: Complete(c.nExperts, a, g) ==> exists i :: 0 <= i < |written| && written[i].group == g)
  }

  predicate Finished<W, S, P>(c: Config<W, S, P>, a: Arrived, n: Name) {
    n.Other? && n in a.weights && (n.name in c.expected ==> n in a.scales)
  }

  function OutputOf<W, S, P>(c: Config<W, S, P>, k: Checkpoint<W, S>, n: Name): Output<P>
    requires n.Other?
  {
    Output(n, if n.name in c.expected then c.dequantize(k.weightOf(n), k.scaleOf(n)) else c.plain(k.weightOf(n)))
  }

  ghost predicate EmittedMatches<W, S, P>(c: Config<W, S, P>, k: Checkpoint<W, S>, a: Arrived, emitted: seq<Output<P>>) {
    && (forall i :: 0 <= i < |emitted| ==> Finished(c, a, emitted[i].name) && emitted[i] == OutputOf(c, k, emitted[i].name))
    && (forall i, j :: 0 <= i < j < |emitted| ==> emitted[i].name != emitted[j].name)
    && (forall n :: Finished(c, a, n) ==> exists i :: 0 <= i < |emitted| && emitted[i].name == n)
  }

  ghost predicate Matches<W, S, P>(c: Config<W, S, P>, k: Checkpoint<W, S>, a: Arrived, s: State<W, S, P>) {
    && PendingMatches(c, k, a, s.pending) && ScalesMatch(k, a, s.scales) && ExpertsMatch(c, k, a, s.experts)
    && WrittenMatches(c, k, a, s.written) && EmittedMatches(c, k, a, s.emitted)
  }

  /** Late names have both parts. */
  predicate LateArrived(a: Arrived) {
    forall n :: n in a.late ==> n.Other? && n in a.weights && n in a.scales
  }

  // -------------------------------------------------------------------- one more message

  lemma {:induction false} CountUpTo(keys: set<nat>, n: nat)
    requires forall e :: e in keys ==> e < n
    ensures |keys| <= n && (|keys| == n <==> Range(keys, n))
  {
    if n == 0 {
      assert keys == {};
    } else {
      var rest := keys - {n - 1};
      CountUpTo(rest, n - 1);
      if n - 1 in keys {
        assert keys == rest + {n - 1};
      } else {
        assert keys == rest;
      }
    }
  }

  /** A message that completes no expert leaves the experts alone. */
  lemma SameExperts<W, S, P>(c: Config<W, S, P>, k: Checkpoint<W, S>, a: Arrived, b: Arrived, s: State<W, S, P>)
    requires forall g, e :: Ready(b, g, e) <==> Ready(a, g, e)
    requires ExpertsMatch(c, k, a, s.experts) && WrittenMatches(c, k, a, s.written)
    ensures ExpertsMatch(c, k, b, s.experts) && WrittenMatches(c, k, b, s.written)
  {
    forall g
      ensures Complete(c.nExperts, b, g) <==> Complete(c.nExperts, a, g)
      ensures Started(c, b, g) <==> Started(c, a, g)
    {
    }
  }

  lemma SameOutputs<W, S, P>(c: Config<W, S, P>, k: Checkpoint<W, S>, a: Arrived, b: Arrived, emitted: seq<Output<P>>)
    requires forall n :: Finished(c, b, n) <==> Finished(c, a, n)
    requires EmittedMatches(c, k, a, emitted)
    ensures EmittedMatches(c, k, b, emitted)
  {
  }

  lemma OneMoreOutput<W, S, P>(c: Config<W, S, P>, k: Checkpoint<W, S>, a: Arrived, b: Arrived, emitted: seq<Output<P>>, n: Name)
    requires n.Other? && !Finished(c, a, n)
    requires forall x :: Finished(c, b, x) <==> Finished(c, a, x) || x == n
    requires EmittedMatches(c, k, a, emitted)
    ensures EmittedMatches(c, k, b, emitted + [OutputOf(c, k, n)])
  {
    var more := emitted + [OutputOf(c, k, n)];
    forall x | Finished(c, b, x)
      ensures exists i :: 0 <= i < |more| && more[i].name == x
    {
      if x == n {
        assert more[|emitted|].name == x;
      } else {
        var i :| 0 <= i < |emitted| && emitted[i].name == x;
        assert more[i].name == x;
      }
    }
  }

  /** The group of the expert that has just become ready. */
  lemma GroupGrows<W, S, P>(c: Config<W, S, P>, k: Checkpoint<W, S>, a: Arrived, b: Arrived, experts: map<Group, map<nat, P>>, g: Group, e: nat)
    requires e < c.nExperts && !Ready(a, g, e) && ExpertsMatch(c, k, a, experts)
    requires forall h, i :: Ready(b, h, i) <==> Ready(a, h, i) || (h == g && i == e)
    ensures var group := (if g in experts then experts[g] else map[])[e := Slice(c, k, g, e)];
            && GroupMatches(c, k, b, g, group)
            && (|group| < c.nExperts <==> !Complete(c.nExperts, b, g))
            && (Complete(c.nExperts, b, g) ==> Range(group.Keys, c.nExperts))
  {
    var before := if g in experts then experts[g] else map[];
    assert GroupMatches(c, k, a, g, before) by {
      if g !in experts {
        assert !Complete(c.nExperts, a, g);
      }
    }
    var group := before[e := Slice(c, k, g, e)];
    assert GroupMatches(c, k, b, g, group);
    CountUpTo(group.Keys, c.nExperts);
    assert |group| == |group.Keys|;
  }

  lemma OthersKeep<W, S, P>(c: Config<W, S, P>, a: Arrived, b: Arrived, g: Group, e: nat)
    requires e < c.nExperts && !Ready(a, g, e)
    requires forall h, i :: Ready(b, h, i) <==> Ready(a, h, i) || (h == g && i == e)
    ensures Started(c, b, g) && !Complete(c.nExperts, a, g)
    ensures forall h :: h != g ==> (Started(c, b, h) <==> Started(c, a, h)) && (Complete(c.nExperts, b, h) <==> Complete(c.nExperts, a, h))
  {
    forall h | h != g
      ensures (Started(c, b, h) <==> Started(c, a, h)) && (Complete(c.nExperts, b, h) <==> Complete(c.nExperts, a, h))
    {
    }
  }

  lemma RecordMatches<W, S, P>(c: Config<W, S, P>, k: Checkpoint<W, S>, a: Arrived, b: Arrived, s: State<W, S, P>, n: Name)
    requires n.Expert? && n.eid < c.nExperts && !Ready(a, Group(n.layer, n.proj), n.eid)
    requires forall h, i :: Ready(b, h, i) <==> Ready(a, h, i) || (h == Group(n.layer, n.proj) && i == n.eid)
    requires ExpertsMatch(c, k, a, s.experts) && WrittenMatches(c, k, a, s.written)
    ensures var r := Record(c, s, n, k.weightOf(n), k.scaleOf(n));
            && r.Ok? && r.value.scales == s.scales && r.value.pending == s.pending && r.value.emitted == s.emitted
            && ExpertsMatch(c, k, b, r.value.experts) && WrittenMatches(c, k, b, r.value.written)
  {
    var g := Group(n.layer, n.proj);
    var group := (if g in s.experts then s.experts[g] else map[])[n.eid := Slice(c, k, g, n.eid)];
    GroupGrows(c, k, a, b, s.experts, g, n.eid);
    OthersKeep(c, a, b, g, n.eid);
    if Complete(c.nExperts, b, g) {
      GroupLeaves(c, k, a, b, s.experts, g, n.eid);
      OneMoreStack(c, k, a, b, s.written, Stack(g, Slices(group, c.nExperts)));
    } else {
      GroupStays(c, k, a, b, s.experts, g, n.eid, group);
      SameStacks(c, k, a, b, s.written);
    }
  }

  ghost predicate OneMore(a: Arrived, b: Arrived, g: Group, e: nat) {
    !Ready(a, g, e) && forall h, i :: Ready(b, h, i) <==> Ready(a, h, i) || (h == g && i == e)
  }

  lemma GroupStays<W, S, P>(c: Config<W, S, P>, k: Checkpoint<W, S>, a: Arrived, b: Arrived,
                            experts: map<Group, map<nat, P>>, g: Group, e: nat, group: map<nat, P>)
    requires e < c.nExperts && OneMore(a, b, g, e) && ExpertsMatch(c, k, a, experts)
    requires GroupMatches(c, k, b, g, group) && !Complete(c.nExperts, b, g)
    ensures ExpertsMatch(c, k, b, experts[g := group])
  {
    OthersKeep(c, a, b, g, e);
    forall h | h != g && h in experts
      ensures GroupMatches(c, k, b, h, experts[h])
    {
    }
  }

  lemma GroupLeaves<W, S, P>(c: Config<W, S, P>, k: Checkpoint<W, S>, a: Arrived, b: Arrived,
                             experts: map<Group, map<nat, P>>, g: Group, e: nat)
    requires e < c.nExperts && OneMore(a, b, g, e) && ExpertsMatch(c, k, a, experts) && Complete(c.nExperts, b, g)
    ensures ExpertsMatch(c, k, b, experts - {g})
  {
    OthersKeep(c, a, b, g, e);
    forall h | h != g && h in experts
      ensures GroupMatches(c, k, b, h, experts[h])
    {
    }
  }

  lemma SameStacks<W, S, P>(c: Config<W, S, P>, k: Checkpoint<W, S>, a: Arrived, b: Arrived, written: seq<Stack<P>>)
    requires forall h :: Complete(c.nExperts, b, h) <==> Complete(c.nExperts, a, h)
    requires WrittenMatches(c, k, a, written)
    ensures WrittenMatches(c, k, b, written)
  {
  }

  lemma OneMoreStack<W, S, P>(c: Config<W, S, P>, k: Checkpoint<W, S>, a: Arrived, b: Arrived, written: seq<Stack<P>>, t: Stack<P>)
    requires !Complete(c.nExperts, a, t.group) && Complete(c.nExperts, b, t.group) && IsStack(c, k, t)
    requires forall h :: h != t.group ==> (Complete(c.nExperts, b, h) <==> Complete(c.nExperts, a, h))
    requires WrittenMatches(c, k, a, written)
    ensures WrittenMatches(c, k, b, written + [t])
  {
    var more := written + [t];
    forall g | Complete(c.nExperts, b, g)
      ensures exists i :: 0 <= i < |more| && more[i].group == g
    {
      if g == t.group {
        assert more[|written|].group == g;
      } else {
        var i :| 0 <= i < |written| && written[i].group == g;
        assert more[i].group == g;
      }
    }
  }

  // ------------------------------------------------------------------------ every message

  lemma StillLate<W, S>(a: Arrived, m: Message<W, S>)
    requires LateArrived(a)
    ensures LateArrived(Add(a, m))
  {
  }

  lemma WeightWaits<W, S, P>(c: Config<W, S, P>, k: Checkpoint<W, S>, a: Arrived, s: State<W, S, P>, m: Message<W, S>)
    requires Matches(c, k, a, s) && LateArrived(a) && Next(c, k, a, m)
    requires m.Weight? && HasScale(c, m.n) && m.n !in a.scales
    ensures Step(c, s, m).Ok? && Matches(c, k, Add(a, m), Step(c, s, m).value)
  {
    SameExperts(c, k, a, Add(a, m), s);
    SameOutputs(c, k, a, Add(a, m), s.emitted);
  }

  lemma ScaleWaits<W, S, P>(c: Config<W, S, P>, k: Checkpoint<W, S>, a: Arrived, s: State<W, S, P>, m: Message<W, S>)
    requires Matches(c, k, a, s) && LateArrived(a) && Next(c, k, a, m)
    requires m.Scale? && m.n !in a.weights
    ensures Step(c, s, m).Ok? && Matches(c, k, Add(a, m), Step(c, s, m).value)
  {
    SameExperts(c, k, a, Add(a, m), s);
    SameOutputs(c, k, a, Add(a, m), s.emitted);
  }

  lemma PlainWeight<W, S, P>(c: Config<W, S, P>, k: Checkpoint<W, S>, a: Arrived, s: State<W, S, P>, m: Message<W, S>)
    requires Matches(c, k, a, s) && LateArrived(a) && Next(c, k, a, m)
    requires m.Weight? && !HasScale(c, m.n) && forall n :: n in a.scales ==> HasScale(c, n)
    ensures Step(c, s, m).Ok? && Matches(c, k, Add(a, m), Step(c, s, m).value)
  {
    SameExperts(c, k, a, Add(a, m), s);
    OneMoreOutput(c, k, a, Add(a, m), s.emitted, m.n);
  }

  lemma PairCompletes<W, S, P>(c: Config<W, S, P>, k: Checkpoint<W, S>, a: Arrived, s: State<W, S, P>, m: Message<W, S>)
    requires Matches(c, k, a, s) && LateArrived(a) && Next(c, k, a, m)
    requires m.n.Other? && m.n.name in c.expected && (if m.Weight? then m.n in a.scales else m.n in a.weights)
    ensures Step(c, s, m).Ok? && Matches(c, k, Add(a, m), Step(c, s, m).value)
  {
    SameExperts(c, k, a, Add(a, m), s);
    OneMoreOutput(c, k, a, Add(a, m), s.emitted, m.n);
  }

  lemma ExpertCompletes<W, S, P>(c: Config<W, S, P>, k: Checkpoint<W, S>, a: Arrived, s: State<W, S, P>, m: Message<W, S>)
    requires Matches(c, k, a, s) && LateArrived(a) && Next(c, k, a, m)
    requires m.n.Expert? && (if m.Weight? then m.n in a.scales else m.n in a.weights)
    ensures Step(c, s, m).Ok? && Matches(c, k, Add(a, m), Step(c, s, m).value)
  {
    var b, n := Add(a, m), m.n;
    var paired := s.(scales := s.scales - {n}, pending := s.pending - {n});
    PairPresent(c, k, a, s, m);
    StepIsRecord(c, k, s, m);
    ReadyGrows(c, a, m, s.emitted, k);
    RecordMatches(c, k, a, b, paired, n);
    PairLeaves(c, k, a, b, s, n);
  }

  lemma PairPresent<W, S, P>(c: Config<W, S, P>, k: Checkpoint<W, S>, a: Arrived, s: State<W, S, P>, m: Message<W, S>)
    requires PendingMatches(c, k, a, s.pending) && ScalesMatch(k, a, s.scales) && LateArrived(a) && Next(c, k, a, m)
    requires m.n.Expert? && (if m.Weight? then m.n in a.scales else m.n in a.weights)
    ensures m.Weight? ==> m.n in s.scales && m.n !in s.pending && s.scales[m.n] == k.scaleOf(m.n) && m.weight == k.weightOf(m.n)
    ensures m.Scale? ==> m.n in s.pending && m.n !in s.scales && s.pending[m.n] == k.weightOf(m.n) && m.scale == k.scaleOf(m.n)
  {
  }

  lemma ReadyGrows<W, S, P>(c: Config<W, S, P>, a: Arrived, m: Message<W, S>, emitted: seq<Output<P>>, k: Checkpoint<W, S>)
    requires m.n.Expert? && Next(c, k, a, m) && (if m.Weight? then m.n in a.scales else m.n in a.weights)
    requires EmittedMatches(c, k, a, emitted)
    ensures OneMore(a, Add(a, m), Group(m.n.layer, m.n.proj), m.n.eid)
    ensures EmittedMatches(c, k, Add(a, m), emitted)
    ensures Add(a, m).weights == a.weights + {m.n} && Add(a, m).scales == a.scales + {m.n} && Add(a, m).late == a.late
  {
    SameOutputs(c, k, a, Add(a, m), emitted);
    assert m.Weight? ==> a.scales + {m.n} == a.scales;
    assert m.Scale? ==> a.weights + {m.n} == a.weights;
  }

  lemma PairLeaves<W, S, P>(c: Config<W, S, P>, k: Checkpoint<W, S>, a: Arrived, b: Arrived, s: State<W, S, P>, n: Name)
    requires PendingMatches(c, k, a, s.pending) && ScalesMatch(k, a, s.scales) && n.Expert? && LateArrived(a)
    requires b.weights == a.weights + {n} && b.scales == a.scales + {n} && b.late == a.late
    ensures PendingMatches(c, k, b, s.pending - {n}) && ScalesMatch(k, b, s.scales - {n})
  {
  }

  /** A tensor that completes an expert leaves no trace in the dictionaries of unpaired ones. */
  lemma StepIsRecord<W, S, P>(c: Config<W, S, P>, k: Checkpoint<W, S>, s: State<W, S, P>, m: Message<W, S>)
    requires m.n.Expert?
    requires m.Weight? ==> m.n in s.scales && m.n !in s.pending && s.scales[m.n] == k.scaleOf(m.n) && m.weight == k.weightOf(m.n)
    requires m.Scale? ==> m.n in s.pending && m.n !in s.scales && s.pending[m.n] == k.weightOf(m.n) && m.scale == k.scaleOf(m.n)
    ensures Step(c, s, m) == Record(c, s.(scales := s.scales - {m.n}, pending := s.pending - {m.n}), m.n, k.weightOf(m.n), k.scaleOf(m.n))
  {
    if m.Weight? {
      assert s.pending - {m.n} == s.pending;
    } else {
      assert s.scales[m.n := m.scale] - {m.n} == s.scales - {m.n};
    }
  }

  lemma StepMatches<W, S, P>(c: Config<W, S, P>, k: Checkpoint<W, S>, a: Arrived, s: State<W, S, P>, m: Message<W, S>)
    requires Matches(c, k, a, s) && LateArrived(a) && Next(c, k, a, m)
    requires forall n :: n in a.scales ==> HasScale(c, n)
    ensures Step(c, s, m).Ok? && Matches(c, k, Add(a, m), Step(c, s, m).value)
  {
    if m.Scale? && m.n !in a.weights {
      ScaleWaits(c, k, a, s, m);
    } else if m.Weight? && !HasScale(c, m.n) {
      PlainWeight(c, k, a, s, m);
    } else if m.Weight? && m.n !in a.scales {
      WeightWaits(c, k, a, s, m);
    } else if m.n.Expert? {
      ExpertCompletes(c, k, a, s, m);
    } else {
      PairCompletes(c, k, a, s, m);
    }
  }

  /** Main theorem: after any part of the stream, in any order, the dictionaries and the
      output are exactly what has arrived determines. */
  lemma {:induction false} EveryStateMatches<W, S, P>(c: Config<W, S, P>, k: Checkpoint<W, S>, log: seq<Message<W, S>>)
    requires c.nExperts > 0 && Stream(c, k, log)
    ensures Run(c, log).Ok? && Matches(c, k, ArrivedIn(log), Run(c, log).value)
    ensures LateArrived(ArrivedIn(log)) && forall n :: n in ArrivedIn(log).scales ==> HasScale(c, n)
  {
    if log == [] {
      StartMatches(c, k);
    } else {
      var init, m := log[..|log| - 1], log[|log| - 1];
      EveryStateMatches(c, k, init);
      StepMatches(c, k, ArrivedIn(init), Run(c, init).value, m);
      StillLate(ArrivedIn(init), m);
    }
  }

  lemma StartMatches<W, S, P>(c: Config<W, S, P>, k: Checkpoint<W, S>)
    requires c.nExperts > 0
    ensures Matches(c, k, Arrived({}, {}, {}), Start())
  {
    var a := Arrived({}, {}, {});
    forall g
      ensures !Complete(c.nExperts, a, g)
    {
      assert !Ready(a, g, 0);
    }
  }

  // ----------------------------------------------------------------------- whole streams

  /** All the tensors `names` have arrived, and their groups of experts are whole. */
  ghost predicate Whole<W, S, P>(c: Config<W, S, P>, names: set<Name>, a: Arrived) {
    && a.weights == names && (forall n :: n in a.scales <==> n in names && HasScale(c, n))
    && forall g: Group, e, f :: 0 <= e < c.nExperts && 0 <= f < c.nExperts && Expert(g.layer, g.proj, e) in names ==> Expert(g.layer, g.proj, f) in names
  }

  /** At the end no weight and no expert is left over.  A scale is left over, and the
      conversion refused, exactly for the non-expert weights that came before their scale. */
  lemma StreamEnds<W, S, P>(c: Config<W, S, P>, k: Checkpoint<W, S>, log: seq<Message<W, S>>, names: set<Name>)
    requires c.nExperts > 0 && Stream(c, k, log) && Whole(c, names, ArrivedIn(log))
    ensures Run(c, log).Ok?
    ensures var s := Run(c, log).value;
            && s.pending == map[] && s.experts == map[] && s.scales.Keys == ArrivedIn(log).late
            && (Prepared(s) <==> forall n :: n in names ==> !WeightFirst(log, n))
    ensures forall n :: n in names && n.Expert? && n.eid < c.nExperts ==>
              exists t :: t in Run(c, log).value.written && t.group == Group(n.layer, n.proj) && IsStack(c, k, t)
  {
    EveryStateMatches(c, k, log);
    var s, a := Run(c, log).value, ArrivedIn(log);
    forall n
      ensures n in a.late <==> WeightFirst(log, n)
    {
      LateMeans(log, n);
    }
    forall g | Started(c, a, g)
      ensures Complete(c.nExperts, a, g)
    {
      var e :| 0 <= e < c.nExperts && Ready(a, g, e);
    }
    assert s.scales.Keys == a.late;
    assert s.scales == map[] <==> a.late == {};
    forall n | n in names && n.Expert? && n.eid < c.nExperts
      ensures exists t :: t in s.written && t.group == Group(n.layer, n.proj) && IsStack(c, k, t)
    {
      var g := Group(n.layer, n.proj);
      assert Ready(a, g, n.eid);
      assert Complete(c.nExperts, a, g);
      var i :| 0 <= i < |s.written| && s.written[i].group == g;
      assert s.written[i] in s.written;
    }
  }

  predicate IsWeight<W, S>(m: Message<W, S>, n: Name) {
    m.Weight? && m.n == n
  }

  predicate IsScale<W, S>(m: Message<W, S>, n: Name) {
    m.Scale? && m.n == n
  }

  /** The weight of a non-expert pair comes before its scale. */
  ghost predicate WeightFirst<W, S>(log: seq<Message<W, S>>, n: Name) {
    n.Other? && exists i, j :: 0 <= i < j < |log| && IsWeight(log[i], n) && IsScale(log[j], n)
  }

  lemma {:induction false} WeightsMean<W, S>(log: seq<Message<W, S>>, n: Name)
    ensures n in ArrivedIn(log).weights <==> exists i :: 0 <= i < |log| && IsWeight(log[i], n)
  {
    if log != [] {
      var init, m := log[..|log| - 1], log[|log| - 1];
      WeightsMean(init, n);
      assert forall i :: 0 <= i < |init| ==> init[i] == log[i];
      if n in ArrivedIn(init).weights {
        var i :| 0 <= i < |init| && IsWeight(init[i], n);
        assert IsWeight(log[i], n);
      }
    }
  }

  lemma {:induction false} LateMeans<W, S>(log: seq<Message<W, S>>, n: Name)
    ensures n in ArrivedIn(log).late <==> WeightFirst(log, n)
  {
    if log != [] {
      var init, last := log[..|log| - 1], |log| - 1;
      LateMeans(init, n);
      WeightsMean(init, n);
      assert forall i :: 0 <= i < |init| ==> init[i] == log[i];
      if WeightFirst(init, n) {
        var i, j :| 0 <= i < j < |init| && IsWeight(init[i], n) && IsScale(init[j], n);
        assert IsWeight(log[i], n) && IsScale(log[j], n);
      } else if n in ArrivedIn(log).late {
        var i :| 0 <= i < |init| && IsWeight(init[i], n);
        assert IsWeight(log[i], n) && IsScale(log[last], n);
      }
    }
  }

  /** The shortest such stream: after a non-expert weight and then its scale, the tensor is
      returned but the scale is still there, and the conversion is refused. */
  lemma LateScaleStays<W, S, P>(c: Config<W, S, P>, k: Checkpoint<W, S>, name: string)
    requires name in c.expected
    ensures var n := Other(name);
            var log := [Weight(n, k.weightOf(n)), Scale(n, k.scaleOf(n))];
            && Stream(c, k, log) && Run(c, log).Ok? && var s := Run(c, log).value;
            && s.emitted == [Output(n, c.dequantize(k.weightOf(n), k.scaleOf(n)))]
            && s.scales == map[n := k.scaleOf(n)] && !Prepared(s)
  {
    var n := Other(name);
    var weight, scale := Weight(n, k.weightOf(n)), Scale(n, k.scaleOf(n));
    var log := [weight, scale];
    var s0: State<W, S, P> := Start();
    assert log[..1] == [weight] && log[..1][..0] == [];
    assert Run(c, [weight]) == Step(c, s0, weight);
    var s1 := Step(c, s0, weight).value;
    assert s1.pending == map[n := k.weightOf(n)] && s1.scales == map[];
    assert Run(c, log) == Step(c, s1, scale);
    assert ArrivedIn([weight]) == Arrived({n}, {}, {});
    assert Stream(c, k, []);
    assert Next(c, k, Arrived({}, {}, {}), weight);
    assert Stream(c, k, [weight]);
    assert Next(c, k, ArrivedIn([weight]), scale);
    assert Stream(c, k, log);
    assert n in Step(c, s1, scale).value.scales;
  }

  /** Confluence: two orders of the same tensors leave the same weights and experts waiting,
      and write and return the same tensors, each once. */
  lemma OrderDoesNotMatter<W, S, P>(c: Config<W, S, P>, k: Checkpoint<W, S>, l1: seq<Message<W, S>>, l2: seq<Message<W, S>>)
    requires c.nExperts > 0 && Stream(c, k, l1) && Stream(c, k, l2)
    requires ArrivedIn(l1).weights == ArrivedIn(l2).weights && ArrivedIn(l1).scales == ArrivedIn(l2).scales
    ensures Run(c, l1).Ok? && Run(c, l2).Ok?
    ensures var s, t := Run(c, l1).value, Run(c, l2).value;
            && s.pending == t.pending && s.experts == t.experts
            && Distinct(s) && Distinct(t)
            && (forall x :: x in s.written <==> x in t.written) && (forall x :: x in s.emitted <==> x in t.emitted)
  {
    EveryStateMatches(c, k, l1);
    EveryStateMatches(c, k, l2);
    var a, b, s, t := ArrivedIn(l1), ArrivedIn(l2), Run(c, l1).value, Run(c, l2).value;
    assert forall g, e :: Ready(a, g, e) <==> Ready(b, g, e);
    assert forall n :: Finished(c, a, n) <==> Finished(c, b, n);
    SameExperts(c, k, a, b, s);
    SameOutputs(c, k, a, b, s.emitted);
    SameMaps(c, k, b, s.experts, t.experts);
    SameLists(c, k, b, s, t);
    SameLists(c, k, b, t, s);
  }

  ghost predicate Distinct<W, S, P>(s: State<W, S, P>) {
    && (forall i, j :: 0 <= i < j < |s.written| ==> s.written[i].group != s.written[j].group)
    && (forall i, j :: 0 <= i < j < |s.emitted| ==> s.emitted[i].name != s.emitted[j].name)
  }

  lemma SameMaps<W, S, P>(c: Config<W, S, P>, k: Checkpoint<W, S>, a: Arrived, x: map<Group, map<nat, P>>, y: map<Group, map<nat, P>>)
    requires ExpertsMatch(c, k, a, x) && ExpertsMatch(c, k, a, y)
    ensures x == y
  {
    forall g | g in x
      ensures x[g] == y[g]
    {
      assert GroupMatches(c, k, a, g, x[g]) && GroupMatches(c, k, a, g, y[g]);
    }
  }

  lemma SameLists<W, S, P>(c: Config<W, S, P>, k: Checkpoint<W, S>, a: Arrived, s: State<W, S, P>, t: State<W, S, P>)
    requires WrittenMatches(c, k, a, s.written) && EmittedMatches(c, k, a, s.emitted)
    requires WrittenMatches(c, k, a, t.written) && EmittedMatches(c, k, a, t.emitted)
    ensures forall x :: x in s.written ==> x in t.written
    ensures forall x :: x in s.emitted ==> x in t.emitted
  {
    forall i | 0 <= i < |s.written|
      ensures s.written[i] in t.written
    {
      assert Complete(c.nExperts, a, s.written[i].group);
      var j :| 0 <= j < |t.written| && t.written[j].group == s.written[i].group;
      assert IsStack(c, k, s.written[i]) && IsStack(c, k, t.written[j]);
      assert s.written[i].slices == t.written[j].slices;
    }
    forall i | 0 <= i < |s.emitted|
      ensures s.emitted[i] in t.emitted
    {
      assert Finished(c, a, s.emitted[i].name);
      var j :| 0 <= j < |t.emitted| && t.emitted[j].name == s.emitted[i].name;
    }
  }
}
