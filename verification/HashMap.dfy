/**
 * The Robin Hood open-addressing hash map (src/util/hash_map.c).
 *
 * A table is an array of entries; an entry with psl (probe sequence length) 0 is an empty slot.
 * Three facts about a table carry every proof here: each entry's psl is its distance from its home
 * slot plus one (Placed), psl rises by at most one from a slot to the next (Ordered), and a key
 * occupies at most one slot (Unique).  Everything holds for every hash function, so the bit mixing of
 * `hash_u64` is a parameter.
 */
module RobinHood {

  type Key = k: nat | k < 0x1_0000_0000_0000_0000
  type Pointer = nat  // void *
  type Hash = Key -> nat

  const NULL: Pointer := 0
  const LOAD_FACTOR := 75
  const MIN_CAPACITY := 16

  datatype Entry = Entry(key: Key, value: Pointer, psl: nat)

  type Table = seq<Entry>

  // ---------- Circular slot arithmetic, free of the modulus ----------

  /** `(i + 1) & mask` for a table of n slots. */
  function Next(i: nat, n: nat): (r: nat)
    requires i < n
  {
    if i + 1 == n then 0 else i + 1
  }

  function Prev(i: nat, n: nat): (r: nat)
    requires i < n
  {
    if i == 0 then n - 1 else i - 1
  }

  /** Number of steps forward from slot `i` to slot `j`. */
  function Dist(i: nat, j: nat, n: nat): (r: nat)
    requires i < n && j < n
  {
    if i <= j then j - i else j + n - i
  }

  function Home(hash: Hash, key: Key, n: nat): (r: nat)
    requires 0 < n
    ensures r < n
  {
    hash(key) % n
  }

  // ---------- The table invariant and its meaning ----------

  ghost predicate Occupied(t: Table, i: nat)
  {
    i < |t| && t[i].psl > 0
  }

  /** Every entry's psl is its probe distance. */
  ghost predicate Placed(t: Table, hash: Hash)
  {
    forall i {:trigger t[i]} :: 0 <= i < |t| && t[i].psl > 0 ==> t[i].psl == Dist(Home(hash, t[i].key, |t|), i, |t|) + 1
  }

  ghost predicate RisesByAtMostOne(t: Table, i: nat)
    requires i < |t|
  {
    t[i].psl <= t[Prev(i, |t|)].psl + 1
  }

  /** psl rises by at most one from a slot to the next. */
  ghost predicate Ordered(t: Table)
  {
    forall i {:trigger RisesByAtMostOne(t, i)} :: 0 <= i < |t| ==> RisesByAtMostOne(t, i)
  }

  ghost predicate Unique(t: Table)
  {
    forall i, j {:trigger t[i], t[j]} ::
      0 <= i < |t| && 0 <= j < |t| && t[i].psl > 0 && t[j].psl > 0 && t[i].key == t[j].key ==> i == j
  }

  ghost predicate WellFormed(t: Table, hash: Hash)
  {
    |t| > 0 && Placed(t, hash) && Ordered(t) && Unique(t)
  }

  ghost predicate HasKey(t: Table, key: Key)
  {
    exists i :: 0 <= i < |t| && t[i].psl > 0 && t[i].key == key
  }

  /** The table stores exactly the bindings of `m`. */
  ghost predicate Represents(t: Table, m: map<Key, Pointer>)
  {
    && (forall i {:trigger t[i]} :: 0 <= i < |t| && t[i].psl > 0 ==> t[i].key in m && m[t[i].key] == t[i].value)
    && (forall k {:trigger HasKey(t, k)} {:trigger k in m} :: k in m ==> HasKey(t, k))
  }

  // ---------- Probing ----------

  /**
   * The Robin Hood guarantee: on the way from a key's home slot to the slot that holds it, no slot is
   * empty or poorer than the probe that passes it.
   */
  lemma {:induction false} ProbePathIsRich(t: Table, hash: Hash, i: nat, j: nat)
    requires WellFormed(t, hash) && i < |t| && Occupied(t, j)
    requires Dist(Home(hash, t[j].key, |t|), i, |t|) <= Dist(Home(hash, t[j].key, |t|), j, |t|)
    ensures t[i].psl >= Dist(Home(hash, t[j].key, |t|), i, |t|) + 1
    decreases Dist(i, j, |t|)
  {
    if i != j {
      ProbePathIsRich(t, hash, Next(i, |t|), j);
      assert RisesByAtMostOne(t, Next(i, |t|));
    }
  }

  /** An empty slot never lies between an entry's home and the entry. */
  lemma EmptySlotIsBeyond(t: Table, hash: Hash, j: nat, e: nat)
    requires WellFormed(t, hash) && Occupied(t, j) && e < |t| && t[e].psl == 0
    ensures var h := Home(hash, t[j].key, |t|); Dist(h, e, |t|) == Dist(h, j, |t|) + Dist(j, e, |t|)
  {
    var h := Home(hash, t[j].key, |t|);
    if Dist(h, e, |t|) <= Dist(h, j, |t|) {
      ProbePathIsRich(t, hash, e, j);
    }
  }

  /** A lookup of `key` arrives at slot `i`: no slot passed so far held it, and the empty slot `e` lies ahead. */
  ghost predicate Searching(t: Table, hash: Hash, key: Key, i: nat, e: nat)
  {
    && WellFormed(t, hash) && i < |t| && e < |t| && t[e].psl == 0
    && var h := Home(hash, key, |t|);
    && Dist(h, e, |t|) == Dist(h, i, |t|) + Dist(i, e, |t|)
    && forall j {:trigger t[j]} ::
        0 <= j < |t| && t[j].psl > 0 && Dist(h, j, |t|) < Dist(h, i, |t|) ==> t[j].key != key
  }

  lemma SearchOn(t: Table, hash: Hash, key: Key, i: nat, e: nat)
    requires Searching(t, hash, key, i, e) && t[i].psl > 0 && t[i].key != key
    ensures Searching(t, hash, key, Next(i, |t|), e)
    ensures Dist(Next(i, |t|), e, |t|) < Dist(i, e, |t|)
    ensures var h := Home(hash, key, |t|); Dist(h, Next(i, |t|), |t|) == Dist(h, i, |t|) + 1
  {
  }

  /** A key that is stored is met before an empty slot or a slot poorer than the probe. */
  lemma SearchFails(t: Table, hash: Hash, key: Key, i: nat, e: nat)
    requires Searching(t, hash, key, i, e)
    requires t[i].psl < Dist(Home(hash, key, |t|), i, |t|) + 1
    ensures !HasKey(t, key)
  {
    if HasKey(t, key) {
      var j :| 0 <= j < |t| && t[j].psl > 0 && t[j].key == key;
      ProbePathIsRich(t, hash, i, j);
    }
  }

  // ---------- Pigeonhole: a table that is not full has an empty slot ----------

  ghost function KeysBelow(t: Table, n: nat): set<Key>
    requires n <= |t|
  {
    set i | 0 <= i < n && t[i].psl > 0 :: t[i].key
  }

  lemma {:induction false} FullPrefixHasAllKeys(t: Table, n: nat)
    requires n <= |t| && Unique(t)
    requires forall i {:trigger t[i]} :: 0 <= i < n ==> t[i].psl > 0
    ensures |KeysBelow(t, n)| == n
  {
    hide Unique;
    if n == 0 {
      assert KeysBelow(t, 0) == {};
    } else {
      FullPrefixHasAllKeys(t, n - 1);
      OneMoreKey(t, n);
    }
  }

  lemma OneMoreKey(t: Table, n: nat)
    requires 0 < n <= |t| && Unique(t) && t[n - 1].psl > 0
    ensures KeysBelow(t, n) == KeysBelow(t, n - 1) + {t[n - 1].key} && t[n - 1].key !in KeysBelow(t, n - 1)
  {
  }

  lemma SubsetSize<T>(a: set<T>, b: set<T>)
    requires a <= b
    ensures |a| <= |b|
  {
    assert b == a + (b - a);
  }

  lemma EmptySlotExists(t: Table, m: map<Key, Pointer>)
    requires Unique(t) && Represents(t, m) && |m| < |t|
    ensures exists e :: 0 <= e < |t| && t[e].psl == 0
  {
    if forall e {:trigger t[e]} :: 0 <= e < |t| ==> t[e].psl > 0 {
      FullPrefixHasAllKeys(t, |t|);
      SubsetSize(KeysBelow(t, |t|), m.Keys);
    }
  }

  // ---------- Insertion with displacement ----------

  /**
   * Between two iterations of an insertion loop: the table is well formed, `hand` is the entry being
   * carried and arrives at slot `i`, the empty slot `e` lies ahead, and table and hand together store
   * exactly `m`.
   */
  ghost predicate Inserting(t: Table, hash: Hash, hand: Entry, i: nat, e: nat, m: map<Key, Pointer>)
  {
    && WellFormed(t, hash)
    && i < |t| && e < |t| && t[e].psl == 0
    && hand.psl == Dist(Home(hash, hand.key, |t|), i, |t|) + 1
    && Dist(Home(hash, hand.key, |t|), e, |t|) == Dist(Home(hash, hand.key, |t|), i, |t|) + Dist(i, e, |t|)
    && (hand.psl > 1 ==> hand.psl <= t[Prev(i, |t|)].psl + 1)
    && !HasKey(t, hand.key)
    && hand.key in m && m[hand.key] == hand.value
    && Represents(t, m - {hand.key})
  }

  lemma StartInserting(t: Table, hash: Hash, key: Key, value: Pointer, e: nat, m: map<Key, Pointer>)
    requires WellFormed(t, hash) && e < |t| && t[e].psl == 0 && !HasKey(t, key) && Represents(t, m)
    ensures Inserting(t, hash, Entry(key, value, 1), Home(hash, key, |t|), e, m[key := value])
  {
    var m' := m[key := value] - {key};
    assert key !in m;
    assert m' == m;
  }

  /** The carried entry passes a slot that is at least as far from home. */
  lemma PassSlot(t: Table, hash: Hash, hand: Entry, i: nat, e: nat, m: map<Key, Pointer>)
    requires Inserting(t, hash, hand, i, e, m) && hand.psl <= t[i].psl
    ensures Inserting(t, hash, hand.(psl := hand.psl + 1), Next(i, |t|), e, m)
    ensures Dist(Next(i, |t|), e, |t|) < Dist(i, e, |t|)
  {
  }

  /** Writing the carried entry into a slot it may take keeps the table well formed. */
  lemma WriteHand(t: Table, hash: Hash, hand: Entry, i: nat, e: nat, m: map<Key, Pointer>)
    requires Inserting(t, hash, hand, i, e, m) && t[i].psl < hand.psl
    ensures WellFormed(t[i := hand], hash)
  {
    var t' := t[i := hand];
    assert Unique(t') by {
      assert forall j {:trigger t[j]} :: 0 <= j < |t| && t[j].psl > 0 ==> t[j].key != hand.key;
    }
    forall j | 0 <= j < |t| ensures RisesByAtMostOne(t', j) {
      assert RisesByAtMostOne(t, j);
    }
  }

  /** Every key stored before, except the one overwritten, and the written key are stored after. */
  lemma KeysAfterWrite(t: Table, hand: Entry, i: nat, k: Key)
    requires i < |t| && hand.psl > 0
    requires k == hand.key || (HasKey(t, k) && !(t[i].psl > 0 && t[i].key == k))
    ensures HasKey(t[i := hand], k)
  {
    var t' := t[i := hand];
    if k == hand.key {
      assert t'[i].key == k;
    } else {
      var j :| 0 <= j < |t| && t[j].psl > 0 && t[j].key == k;
      assert t'[j] == t[j];
    }
  }

  /** The carried entry takes the slot of a richer one, which is carried on. */
  lemma DisplaceSlot(t: Table, hash: Hash, hand: Entry, i: nat, e: nat, m: map<Key, Pointer>)
    requires Inserting(t, hash, hand, i, e, m) && 0 < t[i].psl < hand.psl
    ensures Inserting(t[i := hand], hash, t[i].(psl := t[i].psl + 1), Next(i, |t|), e, m)
    ensures Dist(Next(i, |t|), e, |t|) < Dist(i, e, |t|)
  {
    EmptySlotIsBeyond(t, hash, i, e);
    WriteHand(t, hash, hand, i, e, m);
    forall k | k in m - {t[i].key} ensures HasKey(t[i := hand], k) {
      assert k != hand.key ==> HasKey(t, k);
      KeysAfterWrite(t, hand, i, k);
    }
  }

  /** The carried entry lands in an empty slot. */
  lemma LandInEmptySlot(t: Table, hash: Hash, hand: Entry, i: nat, e: nat, m: map<Key, Pointer>)
    requires Inserting(t, hash, hand, i, e, m) && t[i].psl == 0
    ensures WellFormed(t[i := hand], hash)
    ensures Represents(t[i := hand], m)
  {
    WriteHand(t, hash, hand, i, e, m);
    forall k | k in m ensures HasKey(t[i := hand], k) {
      assert k != hand.key ==> HasKey(t, k);
      KeysAfterWrite(t, hand, i, k);
    }
  }

  // ---------- The loop of `nxp_hash_map_put`: lookup and displacement in one ----------

  /**
   * Between two iterations of put's loop, started on a table that represented `c`.  If the key is
   * bound, the loop is still looking it up; if not, it is inserting, and once the key has been placed
   * the loop never meets it again.
   */
  ghost predicate Putting(t: Table, hash: Hash, hand: Entry, i: nat, e: nat, c: map<Key, Pointer>, key: Key,
                          value: Pointer)
  {
    if key in c then
      && Searching(t, hash, key, i, e)
      && Represents(t, c)
      && hand == Entry(key, value, Dist(Home(hash, key, |t|), i, |t|) + 1)
    else
      && Inserting(t, hash, hand, i, e, c[key := value])
      && forall s {:trigger t[s]} :: 0 <= s < |t| && t[s].psl > 0 && t[s].key == key ==>
         Dist(s, e, |t|) > Dist(i, e, |t|)
  }

  lemma StartPutting(t: Table, hash: Hash, e: nat, c: map<Key, Pointer>, key: Key, value: Pointer)
    requires WellFormed(t, hash) && Represents(t, c) && e < |t| && t[e].psl == 0
    ensures Putting(t, hash, Entry(key, value, 1), Home(hash, key, |t|), e, c, key, value)
  {
    if key !in c {
      StartInserting(t, hash, key, value, e, c);
    }
  }

  lemma PuttingInside(t: Table, hash: Hash, hand: Entry, i: nat, e: nat, c: map<Key, Pointer>, key: Key,
                      value: Pointer)
    requires Putting(t, hash, hand, i, e, c, key, value)
    ensures i < |t| && e < |t|
  {
  }

  lemma PutLands(t: Table, hash: Hash, hand: Entry, i: nat, e: nat, c: map<Key, Pointer>, key: Key, value: Pointer)
    requires Putting(t, hash, hand, i, e, c, key, value) && t[i].psl == 0
    ensures key !in c && WellFormed(t[i := hand], hash) && Represents(t[i := hand], c[key := value])
  {
    if key in c {
      assert HasKey(t, key);
      SearchFails(t, hash, key, i, e);
    } else {
      LandInEmptySlot(t, hash, hand, i, e, c[key := value]);
    }
  }

  lemma PutHits(t: Table, hash: Hash, hand: Entry, i: nat, e: nat, c: map<Key, Pointer>, key: Key, value: Pointer)
    requires Putting(t, hash, hand, i, e, c, key, value) && t[i].psl > 0 && t[i].key == key
    ensures key in c && t[i].value == c[key]
    ensures var t' := t[i := t[i].(value := value)]; WellFormed(t', hash) && Represents(t', c[key := value])
  {
    var t' := t[i := t[i].(value := value)];
    forall j | 0 <= j < |t| ensures RisesByAtMostOne(t', j) {
      assert RisesByAtMostOne(t, j);
    }
    forall k | k in c[key := value] ensures HasKey(t', k) {
      assert HasKey(t, k);
      var j :| 0 <= j < |t| && t[j].psl > 0 && t[j].key == k;
      assert t'[j].key == k;
    }
  }

  lemma PutPasses(t: Table, hash: Hash, hand: Entry, i: nat, e: nat, c: map<Key, Pointer>, key: Key, value: Pointer)
    requires Putting(t, hash, hand, i, e, c, key, value) && t[i].psl > 0 && t[i].key != key && t[i].psl >= hand.psl
    ensures Putting(t, hash, hand.(psl := hand.psl + 1), Next(i, |t|), e, c, key, value)
    ensures Dist(Next(i, |t|), e, |t|) < Dist(i, e, |t|)
  {
    if key in c {
      SearchOn(t, hash, key, i, e);
    } else {
      PassSlot(t, hash, hand, i, e, c[key := value]);
    }
  }

  lemma PutDisplaces(t: Table, hash: Hash, hand: Entry, i: nat, e: nat, c: map<Key, Pointer>, key: Key, value: Pointer)
    requires Putting(t, hash, hand, i, e, c, key, value) && t[i].psl > 0 && t[i].key != key && t[i].psl < hand.psl
    ensures Putting(t[i := hand], hash, t[i].(psl := t[i].psl + 1), Next(i, |t|), e, c, key, value)
    ensures Dist(Next(i, |t|), e, |t|) < Dist(i, e, |t|)
  {
    if key in c {
      assert HasKey(t, key);
      SearchFails(t, hash, key, i, e);
    } else {
      DisplaceSlot(t, hash, hand, i, e, c[key := value]);
    }
  }

  // ---------- Backward-shift deletion ----------

  function Cleared(entry: Entry): (r: Entry)
  {
    entry.(psl := 0, value := NULL)
  }

  /** The table with slot `i` erased. */
  ghost function Without(t: Table, i: nat): (r: Table)
    requires i < |t|
    ensures |r| == |t|
  {
    t[i := Cleared(t[i])]
  }

  /**
   * Between two iterations of the shifting loop: slot `i` holds a stale copy; without it the table
   * stores exactly `m`, and with it the probe order is still intact.
   */
  ghost predicate Deleting(t: Table, hash: Hash, i: nat, e: nat, m: map<Key, Pointer>)
  {
    && Occupied(t, i)
    && e < |t| && t[e].psl == 0
    && Placed(t, hash) && Ordered(t)
    && Unique(Without(t, i))
    && Represents(Without(t, i), m)
  }

  lemma StartDeleting(t: Table, hash: Hash, i: nat, e: nat, m: map<Key, Pointer>)
    requires WellFormed(t, hash) && Occupied(t, i) && e < |t| && t[e].psl == 0 && Represents(t, m)
    ensures Deleting(t, hash, i, e, m - {t[i].key})
  {
    var t' := Without(t, i);
    forall k | k in m - {t[i].key} ensures HasKey(t', k) {
      assert HasKey(t, k);
      var j :| 0 <= j < |t| && t[j].psl > 0 && t[j].key == k;
      assert t'[j] == t[j];
    }
  }

  /** Slot `i` after the entry of the next slot has moved into it. */
  ghost function Shifted(t: Table, i: nat): (r: Table)
    requires i < |t| && t[Next(i, |t|)].psl > 0
    ensures |r| == |t|
  {
    t[i := t[Next(i, |t|)].(psl := t[Next(i, |t|)].psl - 1)]
  }

  lemma ShiftKeepsOrder(t: Table, hash: Hash, i: nat)
    requires Occupied(t, i) && Placed(t, hash) && Ordered(t) && t[Next(i, |t|)].psl > 1
    ensures Placed(Shifted(t, i), hash) && Ordered(Shifted(t, i))
  {
    var n, t' := Next(i, |t|), Shifted(t, i);
    assert RisesByAtMostOne(t, n);
    forall j | 0 <= j < |t| ensures RisesByAtMostOne(t', j) {
      assert RisesByAtMostOne(t, j);
    }
  }

  /** Erasing the next slot after the shift loses nothing: its entry is in slot `i` now. */
  lemma ShiftMovesOneEntry(t: Table, i: nat, j: nat)
    requires i < |t| && t[Next(i, |t|)].psl > 1 && Next(i, |t|) != i && j < |t|
    ensures var n := Next(i, |t|);
            var after := Without(Shifted(t, i), n)[j];
            var before := Without(t, i)[if j == i then n else j];
            && (after.psl > 0 ==> j != n && before.psl > 0 && after.key == before.key && after.value == before.value)
            && (j != n && before.psl > 0 ==> after.psl > 0)
  {
  }

  lemma ShiftKeepsUnique(t: Table, i: nat)
    requires i < |t| && t[Next(i, |t|)].psl > 1 && Next(i, |t|) != i && Unique(Without(t, i))
    ensures Unique(Without(Shifted(t, i), Next(i, |t|)))
  {
    var n := Next(i, |t|);
    var before, after := Without(t, i), Without(Shifted(t, i), n);
    forall j, l | 0 <= j < |t| && 0 <= l < |t| && after[j].psl > 0 && after[l].psl > 0 && after[j].key == after[l].key
      ensures j == l
    {
      ShiftMovesOneEntry(t, i, j);
      ShiftMovesOneEntry(t, i, l);
      assert before[if j == i then n else j].key == before[if l == i then n else l].key;
    }
  }

  lemma ShiftKeepsContents(t: Table, i: nat, m: map<Key, Pointer>)
    requires i < |t| && t[Next(i, |t|)].psl > 1 && Next(i, |t|) != i && Represents(Without(t, i), m)
    ensures Represents(Without(Shifted(t, i), Next(i, |t|)), m)
  {
    var n := Next(i, |t|);
    var before, after := Without(t, i), Without(Shifted(t, i), n);
    forall j | 0 <= j < |t| && after[j].psl > 0 ensures after[j].key in m && m[after[j].key] == after[j].value {
      ShiftMovesOneEntry(t, i, j);
    }
    forall k | k in m ensures HasKey(after, k) {
      assert HasKey(before, k);
      var j :| 0 <= j < |t| && before[j].psl > 0 && before[j].key == k;
      ShiftMovesOneEntry(t, i, if j == n then i else j);
    }
  }

  lemma ShiftBack(t: Table, hash: Hash, i: nat, e: nat, m: map<Key, Pointer>)
    requires Deleting(t, hash, i, e, m) && t[Next(i, |t|)].psl > 1
    ensures Deleting(Shifted(t, i), hash, Next(i, |t|), e, m)
    ensures Dist(Next(i, |t|), e, |t|) < Dist(i, e, |t|)
  {
    ShiftKeepsOrder(t, hash, i);
    ShiftKeepsUnique(t, i);
    ShiftKeepsContents(t, i, m);
  }

  lemma FinishDeleting(t: Table, hash: Hash, i: nat, e: nat, m: map<Key, Pointer>)
    requires Deleting(t, hash, i, e, m) && t[Next(i, |t|)].psl <= 1
    ensures WellFormed(Without(t, i), hash)
  {
    var t' := Without(t, i);
    forall j | 0 <= j < |t| ensures RisesByAtMostOne(t', j) {
      assert RisesByAtMostOne(t, j);
    }
  }

  // ---------- Resizing ----------

  /** The bindings stored in the first `n` slots. */
  ghost function BindingsBelow(t: Table, n: nat, m: map<Key, Pointer>): map<Key, Pointer>
    requires n <= |t|
  {
    map k | k in m && k in KeysBelow(t, n) :: m[k]
  }

  lemma NextKey(t: Table, n: nat, m: map<Key, Pointer>)
    requires n < |t| && Unique(t) && Represents(t, m)
    ensures t[n].psl == 0 ==> KeysBelow(t, n + 1) == KeysBelow(t, n)
    ensures t[n].psl > 0 ==>
              && KeysBelow(t, n + 1) == KeysBelow(t, n) + {t[n].key}
              && t[n].key !in KeysBelow(t, n) && t[n].key in m && m[t[n].key] == t[n].value
  {
  }

  lemma NextBinding(t: Table, n: nat, m: map<Key, Pointer>)
    requires n < |t| && Unique(t) && Represents(t, m)
    ensures t[n].psl == 0 ==> BindingsBelow(t, n + 1, m) == BindingsBelow(t, n, m)
    ensures t[n].psl > 0 ==>
              && t[n].key !in BindingsBelow(t, n, m)
              && BindingsBelow(t, n + 1, m) == BindingsBelow(t, n, m)[t[n].key := t[n].value]
  {
    hide KeysBelow, Unique, Represents;
    NextKey(t, n, m);
  }

  lemma AllBindings(t: Table, m: map<Key, Pointer>)
    requires Represents(t, m)
    ensures BindingsBelow(t, |t|, m) == m
  {
    forall k | k in m ensures k in KeysBelow(t, |t|) {
      assert HasKey(t, k);
    }
  }

  /** An entry of the old table can start its way into the new one, which is never full. */
  lemma StartReinserting(t: Table, n: nat, m: map<Key, Pointer>, t': Table, hash: Hash) returns (e: nat)
    requires Occupied(t, n) && Unique(t) && Represents(t, m) && |m| < |t'|
    requires WellFormed(t', hash) && Represents(t', BindingsBelow(t, n, m))
    ensures Inserting(t', hash, t[n].(psl := 1), Home(hash, t[n].key, |t'|), e, BindingsBelow(t, n + 1, m))
  {
    var below := BindingsBelow(t, n, m);
    SubsetSize(below.Keys, m.Keys);
    EmptySlotExists(t', below);
    e :| 0 <= e < |t'| && t'[e].psl == 0;
    NextBinding(t, n, m);
    NotStored(t', below, t[n].key);
    StartInserting(t', hash, t[n].key, t[n].value, e, below);
  }

  lemma NotStored(t: Table, m: map<Key, Pointer>, key: Key)
    requires Represents(t, m)
    ensures HasKey(t, key) <==> key in m
  {
  }

  lemma StoredValue(t: Table, m: map<Key, Pointer>, i: nat)
    requires Represents(t, m) && i < |t| && t[i].psl > 0
    ensures t[i].key in m && m[t[i].key] == t[i].value
  {
  }

  lemma BlankTable(t: Table, hash: Hash)
    requires |t| > 0 && forall i {:trigger t[i]} :: 0 <= i < |t| ==> t[i].psl == 0
    ensures WellFormed(t, hash) && Represents(t, map[])
  {
  }

  // ---------- Capacities ----------

  ghost predicate IsPowerOfTwo(n: nat)
  {
    n == 1 || (n > 1 && n % 2 == 0 && IsPowerOfTwo(n / 2))
  }

  lemma Doubling(p: nat, v: nat)
    requires IsPowerOfTwo(p) && v > 1 && (v + 1) / 2 <= p < 2 * ((v + 1) / 2)
    ensures IsPowerOfTwo(2 * p) && v <= 2 * p < 2 * v
  {
    assert 2 * p / 2 == p;
    if p > 1 {
      assert p % 2 == 0;
    }
  }

  /** The least power of two that is at least `v`. */
  function NextPowerOfTwo(v: nat): (r: nat)
    requires v > 0
    ensures IsPowerOfTwo(r) && v <= r < 2 * v
  {
    if v == 1 then 1 else
    Doubling(NextPowerOfTwo((v + 1) / 2), v);
    2 * NextPowerOfTwo((v + 1) / 2)
  }

  class HashMap {
    const hash: Hash
    var entries: array<Entry>
    var count: nat

    /** What the table stands for. */
    ghost var contents: map<Key, Pointer>

    ghost predicate Valid()
      reads this, entries
    {
      && entries.Length >= MIN_CAPACITY
      && IsPowerOfTwo(entries.Length)
      && count * 100 < entries.Length * LOAD_FACTOR + 100
      && count == |contents|
      && WellFormed(entries[..], hash)
      && Represents(entries[..], contents)
    }

    constructor (hash: Hash, initialCapacity: nat)
      ensures Valid() && fresh(entries) && this.hash == hash && contents == map[]
      ensures initialCapacity <= entries.Length
    {
      this.hash := hash;
      var capacity := NextPowerOfTwo(if initialCapacity < MIN_CAPACITY then MIN_CAPACITY else initialCapacity);
      entries := new Entry[capacity](_ => Entry(0, NULL, 0));
      count := 0;
      contents := map[];
    }

    /** An empty slot, which bounds every probing loop. */
    lemma SomeEmptySlot() returns (e: nat)
      requires Valid()
      ensures e < entries.Length && entries[e].psl == 0
    {
      EmptySlotExists(entries[..], contents);
      e :| 0 <= e < |entries[..]| && entries[..][e].psl == 0;
    }

    /** The probing loop shared by `nxp_hash_map_get` and `nxp_hash_map_remove`. */
    method Probe(key: Key) returns (found: bool, idx: nat)
      requires Valid()
      ensures found <==> key in contents
      ensures found ==> idx < entries.Length && entries[idx].psl > 0 && entries[idx].key == key
    {
      ghost var t := entries[..];
      ghost var e := SomeEmptySlot();
      NotStored(t, contents, key);
      idx := Home(hash, key, entries.Length);
      var psl := 1;
      while true
        invariant Searching(t, hash, key, idx, e)
        invariant psl == Dist(Home(hash, key, |t|), idx, |t|) + 1
        decreases Dist(idx, e, |t|)
      {
        if entries[idx].psl == 0 || entries[idx].psl < psl {
          SearchFails(t, hash, key, idx, e);
          return false, idx;
        }
        if entries[idx].key == key {
          return true, idx;
        }
        SearchOn(t, hash, key, idx, e);
        idx := Next(idx, entries.Length);
        psl := psl + 1;
      }
    }

    /** `nxp_hash_map_get`: map lookup, with nullptr for a missing key. */
    method Get(key: Key) returns (value: Pointer)
      requires Valid()
      ensures value == if key in contents then contents[key] else NULL
    {
      var found, idx := Probe(key);
      value := if found then entries[idx].value else NULL;
    }

    /** `nxp_hash_map_contains`: a key bound to nullptr counts as absent. */
    method Contains(key: Key) returns (found: bool)
      requires Valid()
      ensures found <==> key in contents && contents[key] != NULL
    {
      var value := Get(key);
      found := value != NULL;
    }

    /** `nxp_hash_map_remove`: deletes the binding and returns its value; a missing key changes nothing. */
    method Remove(key: Key) returns (oldValue: Pointer)
      requires Valid()
      modifies this, entries
      ensures Valid() && entries == old(entries)
      ensures contents == old(contents) - {key}
      ensures oldValue == if key in old(contents) then old(contents)[key] else NULL
    {
      hide WellFormed, Represents, IsPowerOfTwo, Deleting;
      var found, idx := Probe(key);
      if !found {
        assert contents - {key} == contents;
        return NULL;
      }
      StoredValue(entries[..], contents, idx);
      oldValue := entries[idx].value;
      ghost var e := SomeEmptySlot();
      StartDeleting(entries[..], hash, idx, e, contents);
      ShiftFrom(idx, e, contents - {key});
      contents := contents - {key};
      count := count - 1;
    }

    /** The inner loop of `nxp_hash_map_remove`: entries move back one slot until one is at home. */
    method ShiftFrom(start: nat, ghost e: nat, ghost m: map<Key, Pointer>)
      requires Deleting(entries[..], hash, start, e, m)
      modifies entries
      ensures WellFormed(entries[..], hash) && Represents(entries[..], m)
    {
      var idx: nat := start;
      var next := Next(idx, entries.Length);
      while entries[next].psl > 1
        invariant Deleting(entries[..], hash, idx, e, m) && next == Next(idx, entries.Length)
        decreases Dist(idx, e, entries.Length)
      {
        ghost var t := entries[..];
        ShiftBack(t, hash, idx, e, m);
        entries[idx] := entries[next].(psl := entries[next].psl - 1);
        assert entries[..] == Shifted(t, idx);
        idx := next;
        next := Next(idx, entries.Length);
      }
      ghost var t := entries[..];
      FinishDeleting(t, hash, idx, e, m);
      entries[idx] := Cleared(entries[idx]);
      assert entries[..] == Without(t, idx);
    }

    /** `hash_map_resize`: a table of twice the size with the same bindings. */
    method Resize()
      requires Valid()
      modifies this`entries
      ensures Valid() && fresh(entries) && entries.Length == 2 * old(entries.Length)
    {
      hide WellFormed, Represents;
      var table := new Entry[2 * entries.Length](_ => Entry(0, NULL, 0));
      BlankTable(table[..], hash);
      ReinsertAll(table);
      entries := table;
    }

    /** The outer loop of `hash_map_resize`. */
    method ReinsertAll(table: array<Entry>)
      requires WellFormed(entries[..], hash) && Represents(entries[..], contents)
      requires table != entries && |contents| < table.Length
      requires WellFormed(table[..], hash) && Represents(table[..], map[])
      modifies table
      ensures WellFormed(table[..], hash) && Represents(table[..], contents)
    {
      ghost var t := entries[..];
      assert BindingsBelow(t, 0, contents) == map[];
      for i := 0 to entries.Length
        invariant WellFormed(table[..], hash) && Represents(table[..], BindingsBelow(t, i, contents))
      {
        NextBinding(t, i, contents);
        if entries[i].psl != 0 {
          ghost var e := StartReinserting(t, i, contents, table[..], hash);
          Reinsert(table, entries[i].(psl := 1), e, BindingsBelow(t, i + 1, contents));
        }
      }
      AllBindings(t, contents);
    }

    /** The inner loop of `hash_map_resize`: places one entry, displacing richer ones. */
    method Reinsert(table: array<Entry>, first: Entry, ghost e: nat, ghost m: map<Key, Pointer>)
      requires table.Length > 0
      requires Inserting(table[..], hash, first, Home(hash, first.key, table.Length), e, m)
      modifies table
      ensures WellFormed(table[..], hash) && Represents(table[..], m)
    {
      var entry := first;
      var idx: nat := Home(hash, entry.key, table.Length);
      while table[idx].psl != 0
        invariant Inserting(table[..], hash, entry, idx, e, m)
        decreases Dist(idx, e, table.Length)
      {
        ghost var t := table[..];
        if table[idx].psl < entry.psl {
          DisplaceSlot(t, hash, entry, idx, e, m);
          var displaced := table[idx];
          table[idx] := entry;
          assert table[..] == t[idx := entry];
          entry := displaced;
        } else {
          PassSlot(t, hash, entry, idx, e, m);
        }
        entry := entry.(psl := entry.psl + 1);
        idx := Next(idx, table.Length);
      }
      ghost var t := table[..];
      LandInEmptySlot(t, hash, entry, idx, e, m);
      table[idx] := entry;
      assert table[..] == t[idx := entry];
    }

    /** `nxp_hash_map_put`: map update; returns the previous value, or nullptr for a new key. */
    method Put(key: Key, value: Pointer) returns (oldValue: Pointer)
      requires Valid()
      modifies this, entries
      ensures Valid()
      ensures entries == old(entries) || fresh(entries)
      ensures contents == old(contents)[key := value]
      ensures oldValue == if key in old(contents) then old(contents)[key] else NULL
    {
      if count * 100 >= entries.Length * LOAD_FACTOR {
        Resize();
      }
      oldValue := PutWithRoom(key, value);
    }

    /** `nxp_hash_map_put` after the load check. */
    method PutWithRoom(key: Key, value: Pointer) returns (oldValue: Pointer)
      requires Valid() && count * 100 < entries.Length * LOAD_FACTOR
      modifies this`count, this`contents, entries
      ensures Valid()
      ensures contents == old(contents)[key := value]
      ensures oldValue == if key in old(contents) then old(contents)[key] else NULL
    {
      hide WellFormed, Represents, IsPowerOfTwo, Putting;
      ghost var e := SomeEmptySlot();
      StartPutting(entries[..], hash, e, contents, key, value);
      var added;
      oldValue, added := PutFrom(Entry(key, value, 1), e);
      if added {
        count := count + 1;
      }
      contents := contents[key := value];
    }

    /** The loop of `nxp_hash_map_put`, which both looks the key up and displaces entries. */
    method PutFrom(first: Entry, ghost e: nat) returns (oldValue: Pointer, added: bool)
      requires entries.Length > 0
      requires Putting(entries[..], hash, first, Home(hash, first.key, entries.Length), e, contents, first.key,
                       first.value)
      modifies entries
      ensures WellFormed(entries[..], hash)
      ensures Represents(entries[..], contents[first.key := first.value])
      ensures added <==> first.key !in contents
      ensures oldValue == if added then NULL else contents[first.key]
    {
      hide Putting, WellFormed, Represents, Dist;
      var key, value := first.key, first.value;
      var entry := first;
      var idx: nat := Home(hash, key, entries.Length);
      PuttingInside(entries[..], hash, entry, idx, e, contents, key, value);
      while true
        invariant idx < entries.Length
        invariant Putting(entries[..], hash, entry, idx, e, contents, key, value)
        decreases Dist(idx, e, entries.Length)
      {
        ghost var t := entries[..];
        if entries[idx].psl == 0 {
          PutLands(t, hash, entry, idx, e, contents, key, value);
          entries[idx] := entry;
          assert entries[..] == t[idx := entry];
          return NULL, true;
        }
        if entries[idx].key == key {
          PutHits(t, hash, entry, idx, e, contents, key, value);
          oldValue := entries[idx].value;
          entries[idx] := entries[idx].(value := value);
          assert entries[..] == t[idx := t[idx].(value := value)];
          return oldValue, false;
        }
        if entries[idx].psl < entry.psl {
          PutDisplaces(t, hash, entry, idx, e, contents, key, value);
          var displaced := entries[idx];
          entries[idx] := entry;
          assert entries[..] == t[idx := entry];
          entry := displaced;
        } else {
          PutPasses(t, hash, entry, idx, e, contents, key, value);
        }
        entry := entry.(psl := entry.psl + 1);
        idx := Next(idx, entries.Length);
      }
    }
  }
}
