/** The dynamic table of RFC 7541 as a plain sequence, oldest entry first.

    Sections 2.3.2 and 4.1 to 4.4: an entry is accounted as its length plus 32, entries
    leave from the old end, and an entry larger than the table empties it. */
module DynTable {
  import opened HeaderOrder

  const STATIC_ENTRIES := 61

  type Table = seq<Field>

  function EntrySize(f: Field): nat {
    32 + |f.name| + |f.value|
  }

  function Size(t: Table): nat {
    if t == [] then 0 else EntrySize(t[0]) + Size(t[1..])
  }

  /** Drop the oldest entries until the rest fits into `limit`. */
  function Evict(t: Table, limit: nat): (r: Table)
    ensures Size(r) <= limit
  {
    if Size(t) <= limit then t else Evict(t[1..], limit)
  }

  /** Section 4.4: make room, then add; an oversized entry just empties the table. */
  function Insert(t: Table, window: nat, f: Field): Table {
    if EntrySize(f) > window then [] else Evict(t, window - EntrySize(f)) + [f]
  }

  /** The entry `index` of the combined address space refers to, above the static ones. */
  function Lookup(t: Table, index: int): Field
    requires STATIC_ENTRIES < index <= STATIC_ENTRIES + |t|
  {
    t[|t| - (index - STATIC_ENTRIES)]
  }

  lemma {:induction false} SizeConcat(a: Table, b: Table)
    ensures Size(a + b) == Size(a) + Size(b)
    decreases a
  {
    if a == [] {
      assert a + b == b;
    } else {
      assert (a + b)[1..] == a[1..] + b;
      SizeConcat(a[1..], b);
    }
  }

  /** Eviction keeps a suffix, and no more than it must give up. */
  lemma {:induction false} EvictMinimal(t: Table, limit: nat)
    ensures |Evict(t, limit)| <= |t| && Evict(t, limit) == t[|t| - |Evict(t, limit)|..]
    ensures forall k :: 0 <= k < |t| - |Evict(t, limit)| ==> Size(t[k..]) > limit
    decreases t
  {
    if Size(t) > limit {
      EvictMinimal(t[1..], limit);
      var n := |Evict(t, limit)|;
      assert t[1..][|t| - 1 - n..] == t[|t| - n..];
      forall k | 0 <= k < |t| - n ensures Size(t[k..]) > limit {
        if k > 0 { assert t[k..] == t[1..][k - 1..]; } else { assert t[0..] == t; }
      }
    }
  }

  lemma SizeFrom(t: Table, k: nat)
    requires k <= |t| && Size(t[k..]) > 0
    ensures k < |t| && Size(t[k..]) == EntrySize(t[k]) + Size(t[k + 1..])
  {
    assert t[k..][1..] == t[k + 1..];
  }

  lemma {:induction false} EvictAt(t: Table, limit: nat, k: nat)
    requires k <= |t| && Size(t[k..]) <= limit
    requires forall i :: 0 <= i < k ==> Size(t[i..]) > limit
    ensures Evict(t, limit) == t[k..]
    decreases k
  {
    if k == 0 {
      assert t[0..] == t;
    } else {
      assert t[0..] == t;
      assert t[1..][k - 1..] == t[k..];
      forall i | 0 <= i < k - 1 ensures Size(t[1..][i..]) > limit { assert t[1..][i..] == t[i + 1..]; }
      EvictAt(t[1..], limit, k - 1);
    }
  }
}
