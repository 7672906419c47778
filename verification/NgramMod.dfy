/**
  `common_ngram_mod`: a table that maps the hash slot of an n-gram to the token that came
  after it.
 */
module NgramMod {
  import opened Arith

  type Entry = t: int | -0x8000_0000 <= t < 0x8000_0000

  const EMPTY: Entry := -1
  const WRAP := 0x1_0000_0000_0000_0000
  const MULTIPLIER := 6364136223846793005

  /** The wrapping hash of the first `k` tokens; negative tokens are sign-extended. */
  function Hash(tokens: seq<Entry>, k: nat): (h: nat)
    requires k <= |tokens|
    ensures h < WRAP
  {
    if k == 0 then 0 else (Hash(tokens, k - 1) * MULTIPLIER + tokens[k - 1]) % WRAP
  }

  function Slot(tokens: seq<Entry>, n: nat, size: nat): (i: nat)
    requires n <= |tokens| && size > 0
    ensures i < size
  {
    Hash(tokens, n) % size
  }

  // ------------------------------------------------------------------------- the history

  /** One `add`: the slot it went to and the successor it stored. */
  datatype Added = Added(slot: nat, next: Entry)

  /** The successor that the latest add to a slot stored. */
  function Latest(log: seq<Added>, slot: nat): Entry {
    if log == [] then EMPTY
    else if log[|log| - 1].slot == slot then log[|log| - 1].next
    else Latest(log[..|log| - 1], slot)
  }

  function EmptyAdds(log: seq<Added>): nat {
    if log == [] then 0
    else EmptyAdds(log[..|log| - 1]) + if log[|log| - 1].next == EMPTY then 1 else 0
  }

  function Occupied(entries: seq<Entry>): nat {
    if entries == [] then 0
    else Occupied(entries[..|entries| - 1]) + if entries[|entries| - 1] == EMPTY then 0 else 1
  }

  lemma {:induction false} OccupiedUpdate(entries: seq<Entry>, i: nat, t: Entry)
    requires i < |entries|
    ensures Occupied(entries[i := t]) + (if entries[i] == EMPTY then 0 else 1)
            == Occupied(entries) + (if t == EMPTY then 0 else 1)
  {
    var k := |entries| - 1;
    if i == k {
      assert entries[i := t][..k] == entries[..k];
    } else {
      assert entries[i := t][..k] == entries[..k][i := t];
      OccupiedUpdate(entries[..k], i, t);
    }
  }

  lemma {:induction false} NoneOccupied(entries: seq<Entry>)
    requires forall i :: 0 <= i < |entries| ==> entries[i] == EMPTY
    ensures Occupied(entries) == 0
  {
    if entries != [] {
      NoneOccupied(entries[..|entries| - 1]);
    }
  }

  class NgramTable {
    const n: nat
    const entries: array<Entry>
    var used: nat
    /** Every add since the last reset. */
    ghost var log: seq<Added>

    /** The table is the history seen through the slots, and `used` counts the occupied slots
        and, once more, every add that stored EMPTY. */
    ghost predicate Valid()
      reads this, entries
    {
      && entries.Length > 0
      && (forall i :: 0 <= i < entries.Length ==> entries[i] == Latest(log, i))
      && used == Occupied(entries[..]) + EmptyAdds(log)
    }

    constructor (n: nat, size: nat)
      requires n < 0x1_0000 && size > 0
      ensures Valid() && fresh(entries) && entries.Length == size && this.n == n
      ensures log == [] && used == 0
    {
      this.n := n;
      entries := new Entry[size](_ => EMPTY);
      used := 0;
      log := [];
      new;
      NoneOccupied(entries[..]);
    }

    method Idx(tokens: seq<Entry>) returns (i: nat)
      requires entries.Length > 0 && |tokens| >= n
      ensures i == Slot(tokens, n, entries.Length)
    {
      var res := 0;
      for k := 0 to n
        invariant res == Hash(tokens, k)
      {
        res := (res * MULTIPLIER + tokens[k]) % WRAP;
      }
      i := res % entries.Length;
    }

    method Add(tokens: seq<Entry>)
      requires Valid() && |tokens| > n
      modifies this`used, this`log, entries
      ensures Valid()
      ensures log == old(log) + [Added(Slot(tokens, n, entries.Length), tokens[n])]
      ensures entries[..] == old(entries[..])[Slot(tokens, n, entries.Length) := tokens[n]]
      ensures used == old(used) + if old(entries[..])[Slot(tokens, n, entries.Length)] == EMPTY then 1 else 0
    {
      var i := Idx(tokens);
      OccupiedUpdate(entries[..], i, tokens[n]);
      ghost var before := entries[..];
      if entries[i] == EMPTY {
        used := used + 1;
      }
      entries[i] := tokens[n];
      log := log + [Added(i, tokens[n])];
      assert log[..|log| - 1] == old(log);
      assert entries[..] == before[i := tokens[n]];
    }

    method Get(tokens: seq<Entry>) returns (t: Entry)
      requires Valid() && |tokens| >= n
      ensures t == Latest(log, Slot(tokens, n, entries.Length))
    {
      var i := Idx(tokens);
      t := entries[i];
    }

    method Reset()
      requires entries.Length > 0
      modifies this`used, this`log, entries
      ensures Valid() && log == [] && used == 0
      ensures forall i :: 0 <= i < entries.Length ==> entries[i] == EMPTY
    {
      for i := 0 to entries.Length
        invariant forall j :: 0 <= j < i ==> entries[j] == EMPTY
      {
        entries[i] := EMPTY;
      }
      used := 0;
      log := [];
      NoneOccupied(entries[..]);
    }

    /** `used` is the number of occupied slots exactly as long as no add stored EMPTY. */
    method GetUsed() returns (count: nat)
      requires Valid()
      ensures count == Occupied(entries[..]) + EmptyAdds(log)
      ensures count == Occupied(entries[..]) <==> forall i :: 0 <= i < |log| ==> log[i].next != EMPTY
    {
      count := used;
      NoEmptyAdds(log);
    }
  }

  lemma {:induction false} NoEmptyAdds(log: seq<Added>)
    ensures EmptyAdds(log) == 0 <==> forall i :: 0 <= i < |log| ==> log[i].next != EMPTY
  {
    if log != [] {
      NoEmptyAdds(log[..|log| - 1]);
    }
  }

  /** `Latest` in terms of the history: the successor of the add to the slot after which no
      other add went there, */
  lemma {:induction false} LatestIsLast(log: seq<Added>, slot: nat, j: nat)
    requires j < |log| && log[j].slot == slot && forall h :: j < h < |log| ==> log[h].slot != slot
    ensures Latest(log, slot) == log[j].next
  {
    if j < |log| - 1 {
      LatestIsLast(log[..|log| - 1], slot, j);
    }
  }

  /** and EMPTY when nothing was added to the slot. */
  lemma {:induction false} LatestIsEmpty(log: seq<Added>, slot: nat)
    requires forall j :: 0 <= j < |log| ==> log[j].slot != slot
    ensures Latest(log, slot) == -1
  {
    if log != [] {
      LatestIsEmpty(log[..|log| - 1], slot);
    }
  }

  /** The slots in use are exactly those some add went to, when no add stored EMPTY. */
  lemma {:induction false} InUseIffAdded(log: seq<Added>, slot: nat)
    requires forall i :: 0 <= i < |log| ==> log[i].next != EMPTY
    ensures Latest(log, slot) != EMPTY <==> exists i :: 0 <= i < |log| && log[i].slot == slot
  {
    if log != [] {
      var k := |log| - 1;
      InUseIffAdded(log[..k], slot);
      if i :| 0 <= i < k && log[i].slot == slot {
        assert log[..k][i].slot == slot;
      }
    }
  }

  // ---------------------------------------------------------------------------- the hash

  /** The same polynomial without wrapping. */
  function Polynomial(tokens: seq<Entry>, k: nat): int
    requires k <= |tokens|
  {
    if k == 0 then 0 else Polynomial(tokens, k - 1) * MULTIPLIER + tokens[k - 1]
  }

  /** Wrapping at every step gives what wrapping once at the end would. */
  lemma {:induction false} HashWrapsOnce(tokens: seq<Entry>, k: nat)
    requires k <= |tokens|
    ensures Hash(tokens, k) == Polynomial(tokens, k) % WRAP
  {
    if k > 0 {
      HashWrapsOnce(tokens, k - 1);
      var p := Polynomial(tokens, k - 1);
      var q := p / WRAP;
      assert p == q * WRAP + p % WRAP;
      ModStep((p % WRAP) * MULTIPLIER + tokens[k - 1], q * MULTIPLIER, WRAP);
    }
  }

  /** The shortest such history: one add of an EMPTY successor is counted, and finds nothing. */
  method CountsEmpty(token: Entry, size: nat) returns (count: nat, found: Entry)
    requires size > 0
    ensures count == 1 && found == EMPTY
  {
    var table := new NgramTable(1, size);
    table.Add([token, EMPTY]);
    assert table.log == [Added(Slot([token, EMPTY], 1, size), EMPTY)];
    found := table.Get([token, EMPTY]);
    count := table.used;
  }

  /** The slot of an n-gram, in numbers: the polynomial in its tokens, first modulo 2^64 and then
      modulo the size of the table. */
  lemma SlotIsPolynomial(tokens: seq<Entry>, n: nat, size: nat)
    requires n <= |tokens| && size > 0
    ensures Slot(tokens, n, size) == Polynomial(tokens, n) % 18446744073709551616 % size
    ensures n > 0 ==> Polynomial(tokens, n) == Polynomial(tokens, n - 1) * 6364136223846793005 + tokens[n - 1]
  {
    HashWrapsOnce(tokens, n);
  }

  /** `Occupied` counts the slots that hold a token. */
  lemma {:induction false} OccupiedCounts(entries: seq<Entry>)
    ensures Occupied(entries) == |set i | 0 <= i < |entries| && entries[i] != -1|
  {
    var slots := set i | 0 <= i < |entries| && entries[i] != -1;
    if entries == [] {
      assert slots == {};
    } else {
      var k := |entries| - 1;
      var less := set i | 0 <= i < |entries[..k]| && entries[..k][i] != -1;
      OccupiedCounts(entries[..k]);
      assert slots == if entries[k] != -1 then less + {k} else less;
    }
  }
}
