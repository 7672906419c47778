/**
  The DeepSeek-V4.1 tensor stream: weights and scales arrive in any order and are paired; the
  experts of a layer and projection are stacked as soon as all of them are there.  `Step` is
  what one tensor does; the class does it in place on its dictionaries.
 */
module ExpertStream {
  import opened Options

  /** A weight name: one expert of a layer and projection, or any other tensor. */
  datatype Name =
    | Expert(layer: nat, proj: nat, eid: nat)
    | Other(name: string)

  datatype Group = Group(layer: nat, proj: nat)

  /** What arrives: the weight itself or its scale. */
  datatype Message<W, S> = Weight(n: Name, weight: W) | Scale(n: Name, scale: S)

  datatype Stack<P> = Stack(group: Group, slices: seq<P>)
  datatype Output<P> = Output(name: Name, tensor: P)

  datatype State<W, S, P> = State(
    scales: map<Name, S>, pending: map<Name, W>, experts: map<Group, map<nat, P>>,
    written: seq<Stack<P>>, emitted: seq<Output<P>>)

  datatype Error = UnexpectedScale(n: Name) | IncompleteExperts(group: Group)

  /** What the conversion is given: the number of experts, the names that have a scale, and
      the tensor operations, which stay uninterpreted. */
  datatype Config<!W, !S, !P> = Config(
    nExperts: nat, expected: set<string>,
    pack: (W, S) -> P, dequantize: (W, S) -> P, plain: W -> P)

  predicate Range(keys: set<nat>, n: nat) {
    (forall e :: e in keys ==> e < n) && (forall e :: 0 <= e < n ==> e in keys)
  }

  /** The experts of a group in the order of their numbers. */
  function Slices<P>(group: map<nat, P>, n: nat): (t: seq<P>)
    requires Range(group.Keys, n)
    ensures |t| == n && forall e :: 0 <= e < n ==> t[e] == group[e]
  {
    seq(n, e requires 0 <= e < n => assert e in group.Keys; group[e])
  }

  method StackExperts<P>(group: map<nat, P>, n: nat) returns (t: seq<P>)
    requires Range(group.Keys, n)
    ensures t == Slices(group, n)
  {
    t := [];
    for e := 0 to n
      invariant |t| == e && forall i :: 0 <= i < e ==> t[i] == Slices(group, n)[i]
    {
      assert e in group.Keys;
      t := t + [group[e]];
    }
  }

  /** `_v41_record_expert`. */
  function Record<W, S, P>(c: Config<W, S, P>, s: State<W, S, P>, n: Name, w: W, sc: S): Result<State<W, S, P>, Error>
    requires n.Expert?
  {
    var g := Group(n.layer, n.proj);
    var group := (if g in s.experts then s.experts[g] else map[])[n.eid := c.pack(w, sc)];
    if |group| < c.nExperts then Ok(s.(experts := s.experts[g := group]))
    else if !Range(group.Keys, c.nExperts) then Err(IncompleteExperts(g))
    else Ok(s.(experts := s.experts - {g}, written := s.written + [Stack(g, Slices(group, c.nExperts))]))
  }

  function StepScale<W, S, P>(c: Config<W, S, P>, s: State<W, S, P>, n: Name, sc: S): Result<State<W, S, P>, Error> {
    if n.Other? && n.name !in c.expected then Err(UnexpectedScale(n))
    else
      var s1 := s.(scales := s.scales[n := sc]);
      if n !in s.pending then Ok(s1)
      else
        var w := s.pending[n];
        var s2 := s1.(pending := s.pending - {n});
        if n.Expert? then Record(c, s2.(scales := s2.scales - {n}), n, w, sc)
        else Ok(s2.(emitted := s.emitted + [Output(n, c.dequantize(w, sc))]))
  }

  function StepWeight<W, S, P>(c: Config<W, S, P>, s: State<W, S, P>, n: Name, w: W): Result<State<W, S, P>, Error> {
    if n.Other? && n.name !in c.expected then Ok(s.(emitted := s.emitted + [Output(n, c.plain(w))]))
    else if n !in s.scales then Ok(s.(pending := s.pending[n := w]))
    else
      var s1 := s.(scales := s.scales - {n});
      if n.Expert? then Record(c, s1, n, w, s.scales[n])
      else Ok(s1.(emitted := s.emitted + [Output(n, c.dequantize(w, s.scales[n]))]))
  }

  function Step<W, S, P>(c: Config<W, S, P>, s: State<W, S, P>, m: Message<W, S>): Result<State<W, S, P>, Error> {
    match m
    case Weight(n, w) => StepWeight(c, s, n, w)
    case Scale(n, sc) => StepScale(c, s, n, sc)
  }

  function Start<W, S, P>(): State<W, S, P> {
    State(map[], map[], map[], [], [])
  }

  function Run<W, S, P>(c: Config<W, S, P>, log: seq<Message<W, S>>): Result<State<W, S, P>, Error> {
    if log == [] then Ok(Start())
    else
      match Run(c, log[..|log| - 1])
      case Ok(s) => Step(c, s, log[|log| - 1])
      case Err(e) => Err(e)
  }

  /** Success, or the error. */
  function Verdict<T>(r: Result<T, Error>): Result<(), Error> {
    if r.Ok? then Ok(()) else Err(r.error)
  }

  /** `prepare_tensors` accepts when nothing is left over. */
  predicate Prepared<W, S, P>(s: State<W, S, P>) {
    s.pending == map[] && s.scales == map[] && s.experts == map[]
  }

  /** A scale that no other tensor is expected to have is refused, whatever has arrived, and
      nothing else about a tensor that is not an expert is. */
  lemma RefusesUnexpectedScales<W, S, P>(c: Config<W, S, P>, s: State<W, S, P>, m: Message<W, S>)
    requires m.n.Other?
    ensures Step(c, s, m).Err? <==> m.Scale? && m.n.name !in c.expected
    ensures Step(c, s, m).Err? ==> Step(c, s, m).error == UnexpectedScale(m.n)
  {
  }

  /** The numbers of the experts of a group once one more has arrived. */
  function Ids<W, S, P>(s: State<W, S, P>, n: Name): set<nat>
    requires n.Expert?
  {
    var g := Group(n.layer, n.proj);
    (if g in s.experts then s.experts[g].Keys else {}) + {n.eid}
  }

  lemma RecordOutcome<W, S, P>(c: Config<W, S, P>, s: State<W, S, P>, n: Name, w: W, sc: S)
    requires n.Expert?
    ensures var g, ids, r := Group(n.layer, n.proj), Ids(s, n), Record(c, s, n, w, sc);
            if |ids| < c.nExperts then
              r.Ok? && g in r.value.experts && r.value.experts[g].Keys == ids && r.value.written == s.written
            else if forall e :: e in ids <==> 0 <= e < c.nExperts then
              r.Ok? && g !in r.value.experts && |r.value.written| == |s.written| + 1 && r.value.written[|s.written|].group == g
            else r == Err(IncompleteExperts(g))
  {
    var g := Group(n.layer, n.proj);
    var before: map<nat, P> := if g in s.experts then s.experts[g] else map[];
    var group := before[n.eid := c.pack(w, sc)];
    assert group.Keys == Ids(s, n) && |group| == |group.Keys|;
  }

  lemma StepRecords<W, S, P>(c: Config<W, S, P>, s: State<W, S, P>, m: Message<W, S>) returns (s1: State<W, S, P>, w: W, sc: S)
    requires m.n.Expert? && (if m.Weight? then m.n in s.scales else m.n in s.pending)
    ensures Step(c, s, m) == Record(c, s1, m.n, w, sc) && s1.experts == s.experts && s1.written == s.written
  {
    if m.Weight? {
      s1, w, sc := s.(scales := s.scales - {m.n}), m.weight, s.scales[m.n];
    } else {
      s1, w, sc := s.(scales := s.scales[m.n := m.scale] - {m.n}, pending := s.pending - {m.n}), s.pending[m.n], m.scale;
    }
  }

  /** What an expert's weight and scale do once both are there, by the numbers of the experts of
      its group that have arrived: too few wait, exactly 0 to n - 1 are stacked, any other n
      numbers are refused. */
  lemma ExpertOutcome<W, S, P>(c: Config<W, S, P>, s: State<W, S, P>, m: Message<W, S>)
    requires m.n.Expert? && (if m.Weight? then m.n in s.scales else m.n in s.pending)
    ensures var g, ids, r := Group(m.n.layer, m.n.proj), Ids(s, m.n), Step(c, s, m);
            if |ids| < c.nExperts then
              r.Ok? && g in r.value.experts && r.value.experts[g].Keys == ids && r.value.written == s.written
            else if forall e :: e in ids <==> 0 <= e < c.nExperts then
              r.Ok? && g !in r.value.experts && |r.value.written| == |s.written| + 1 && r.value.written[|s.written|].group == g
            else r == Err(IncompleteExperts(g))
  {
    var s1, w, sc := StepRecords(c, s, m);
    RecordOutcome(c, s1, m.n, w, sc);
  }

  // ------------------------------------------------------------------------- in place

  class Converter<W, S, P> {
    const c: Config<W, S, P>
    var scales: map<Name, S>
    var pending: map<Name, W>
    var experts: map<Group, map<nat, P>>
    var written: seq<Stack<P>>
    var emitted: seq<Output<P>>

    ghost function Abs(): State<W, S, P>
      reads this
    {
      State(scales, pending, experts, written, emitted)
    }

    constructor (c: Config<W, S, P>)
      ensures this.c == c && Abs() == Start()
    {
      this.c := c;
      scales, pending, experts, written, emitted := map[], map[], map[], [], [];
    }

    method RecordExpert(n: Name, w: W, sc: S) returns (r: Result<(), Error>)
      requires n.Expert?
      modifies this
      ensures r == Verdict(Record(c, old(Abs()), n, w, sc))
      ensures r.Ok? ==> Ok(Abs()) == Record(c, old(Abs()), n, w, sc)
    {
      var packed := c.pack(w, sc);
      var g := Group(n.layer, n.proj);
      var group: map<nat, P> := if g in experts then experts[g] else map[];
      group := group[n.eid := packed];
      experts := experts[g := group];
      if |group| < c.nExperts {
        return Ok(());
      }
      experts := experts - {g};
      assert experts == old(experts) - {g};
      if !Range(group.Keys, c.nExperts) {
        return Err(IncompleteExperts(g));
      }
      var slices := StackExperts(group, c.nExperts);
      written := written + [Stack(g, slices)];
      r := Ok(());
    }

    /** `modify_tensors`: one weight or one scale. */
    method ModifyTensors(m: Message<W, S>) returns (r: Result<(), Error>)
      modifies this
      ensures r == Verdict(Step(c, old(Abs()), m))
      ensures r.Ok? ==> Ok(Abs()) == Step(c, old(Abs()), m)
    {
      var n := m.n;
      if n.Expert? {
        var weight;
        if m.Scale? {
          scales := scales[n := m.scale];
          if n !in pending {
            return Ok(());
          }
          weight := pending[n];
          pending := pending - {n};
        } else {
          if n !in scales {
            pending := pending[n := m.weight];
            return Ok(());
          }
          weight := m.weight;
        }
        var scale := scales[n];
        scales := scales - {n};
        r := RecordExpert(n, weight, scale);
        return;
      }
      if m.Scale? {
        if n.name !in c.expected {
          return Err(UnexpectedScale(n));
        }
        scales := scales[n := m.scale];
        if n in pending {
          var weight := pending[n];
          pending := pending - {n};
          emitted := emitted + [Output(n, c.dequantize(weight, m.scale))];
        }
        return Ok(());
      }
      if n.name in c.expected {
        if n !in scales {
          pending := pending[n := m.weight];
          return Ok(());
        }
        var scale := scales[n];
        scales := scales - {n};
        emitted := emitted + [Output(n, c.dequantize(m.weight, scale))];
        return Ok(());
      }
      emitted := emitted + [Output(n, c.plain(m.weight))];
      r := Ok(());
    }
  }
}
