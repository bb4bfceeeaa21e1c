/** The HPACK decoder table: a growable circular array of entries. */
module DecoderTable {
  import opened Common
  import opened HeaderOrder
  import D = DynTable

  datatype Status = Ok | CompressionError

  /** Position `i` steps behind `start` in a circle of `length`. */
  function Wrap(start: int, i: int, length: int): int {
    if start + i < length then start + i else start + i - length
  }

  /** Slot of the oldest of `n` entries when the next free slot is `curr`. */
  function Early(curr: int, n: int, length: int): int {
    if curr >= n then curr - n else curr + length - n
  }

  /** The `n` slots before `curr` hold `t`, oldest first. */
  predicate Circle(a: seq<Field>, curr: int, t: D.Table) {
    && |t| <= |a| && 0 <= curr && (if |a| == 0 then curr == 0 else curr < |a|)
    && forall i :: 0 <= i < |t| ==> a[Wrap(Early(curr, |t|, |a|), i, |a|)] == t[i]
  }

  /** Forgetting the oldest entries needs no change to the array. */
  lemma CircleDrop(a: seq<Field>, curr: int, t: D.Table, k: nat)
    requires Circle(a, curr, t) && k <= |t|
    ensures Circle(a, curr, t[k..])
  {
    var e, e' := Early(curr, |t|, |a|), Early(curr, |t| - k, |a|);
    forall i | 0 <= i < |t| - k ensures a[Wrap(e', i, |a|)] == t[k..][i] {
      assert Wrap(e', i, |a|) == Wrap(e, k + i, |a|);
    }
  }

  lemma CircleOldest(a: seq<Field>, curr: int, t: D.Table, k: nat)
    requires Circle(a, curr, t) && k < |t|
    ensures var e := Wrap(Early(curr, |t|, |a|), k, |a|); 0 <= e < |a| && a[e] == t[k]
  {
  }

  lemma WrapFirst(curr: int, n: nat, l: nat)
    requires 0 < n <= l && 0 <= curr < l
    ensures Wrap(Early(curr, n, l), 0, l) == Early(curr, n, l)
  {
  }

  lemma WrapNext(curr: int, n: nat, k: nat, l: nat)
    requires n <= l && 0 <= curr < l && k < n
    ensures var e := Wrap(Early(curr, n, l), k, l);
      0 <= e < l && (k + 1 < n ==> Wrap(Early(curr, n, l), k + 1, l) == if e + 1 == l then 0 else e + 1)
  {
  }

  /** Storing at `curr` while a slot is free adds the newest entry. */
  lemma CircleAdd(a: seq<Field>, curr: int, t: D.Table, f: Field)
    requires Circle(a, curr, t) && |t| < |a|
    ensures Circle(a[curr := f], Wrap(curr, 1, |a|), t + [f])
  {
    var b, c, e := a[curr := f], Wrap(curr, 1, |a|), Early(curr, |t|, |a|);
    forall i | 0 <= i < |t| + 1 ensures b[Wrap(Early(c, |t| + 1, |b|), i, |b|)] == (t + [f])[i] {
      if i < |t| {
        assert Wrap(Early(c, |t| + 1, |b|), i, |b|) == Wrap(e, i, |a|) != curr;
      } else {
        assert Wrap(Early(c, |t| + 1, |b|), i, |b|) == curr;
      }
    }
  }

  /** The k-th newest entry lies `k` slots before `curr`. */
  lemma CircleNewest(a: seq<Field>, curr: int, t: D.Table, k: nat)
    requires Circle(a, curr, t) && 1 <= k <= |t|
    ensures var p := if k <= curr then curr - k else curr + |a| - k; 0 <= p < |a| && a[p] == t[|t| - k]
  {
    assert Wrap(Early(curr, |t|, |a|), |t| - k, |a|) == if k <= curr then curr - k else curr + |a| - k;
  }

  /** A full, unwrapped circle keeps its contents when room is added behind it. */
  lemma CircleGrowFlat(a: seq<Field>, b: seq<Field>, t: D.Table)
    requires Circle(a, 0, t) && |t| == |a| && |b| > |a| && b[..|a|] == a
    ensures Circle(b, |a|, t)
  {
    forall i | 0 <= i < |t| ensures b[Wrap(Early(|a|, |t|, |b|), i, |b|)] == t[i] {
      assert a[Wrap(Early(0, |t|, |a|), i, |a|)] == t[i];
      assert b[..|a|][i] == a[i];
    }
  }

  /** A full circle that wraps at `curr`: the old half moves to the end of the bigger array. */
  lemma CircleGrowInPlace(a: seq<Field>, b: seq<Field>, curr: int, t: D.Table)
    requires Circle(a, curr, t) && |t| == |a| && |b| == 2 * |a| && 0 < curr
    requires b[..curr] == a[..curr] && b[|a| + curr..] == a[curr..]
    ensures Circle(b, curr, t)
  {
    var l := |a|;
    forall i | 0 <= i < |t| ensures b[Wrap(Early(curr, |t|, |b|), i, |b|)] == t[i] {
      assert a[Wrap(Early(curr, |t|, |a|), i, |a|)] == t[i];
      if curr + i < l {
        assert b[l + curr..][i] == a[curr..][i];
      } else {
        assert b[..curr][curr + i - l] == a[..curr][curr + i - l];
      }
    }
  }

  /** A full circle laid out flat in a fresh array. */
  lemma CircleRelocate(a: seq<Field>, b: seq<Field>, curr: int, t: D.Table)
    requires Circle(a, curr, t) && |t| == |a| && |b| > |a|
    requires b[..|a|] == a[curr..] + a[..curr]
    ensures Circle(b, |a|, t)
  {
    forall i | 0 <= i < |t| ensures b[Wrap(Early(|a|, |t|, |b|), i, |b|)] == t[i] {
      assert a[Wrap(Early(curr, |t|, |a|), i, |a|)] == t[i];
      assert b[..|a|][i] == (a[curr..] + a[..curr])[i];
    }
  }

  lemma CircleNone(a: seq<Field>, curr: int)
    requires 0 <= curr && (if |a| == 0 then curr == 0 else curr < |a|)
    ensures Circle(a, curr, []) && D.Size([]) == 0
  {
  }

  lemma {:induction false} CircleFits(a: seq<Field>, curr: int, t: D.Table)
    requires Circle(a, curr, t)
    ensures |t| <= |a| && 0 <= curr && (if |a| == 0 then curr == 0 else curr < |a|) && D.Size([]) == 0
    ensures D.Evict(t, D.Size(t)) == t && forall w: nat | D.Size(t) <= w :: D.Evict(t, w) == t
  {
  }

  lemma CircleCurr(a: seq<Field>, curr: int, t: D.Table)
    requires Circle(a, curr, t) && |a| > 0
    ensures 0 <= curr < |a|
  {
  }

  lemma {:induction false} SizeBound(t: D.Table)
    ensures D.Size(t) >= 32 * |t|
    decreases t
  {
    if t != [] { SizeBound(t[1..]); }
  }

  /** The wrapped length is too small exactly if the length does not fit. */
  lemma Overhead(h: nat)
    ensures (32 + h) % WORD < h <==> 32 + h >= WORD
    ensures 32 + h < WORD ==> (32 + h) % WORD == 32 + h
  {
  }

  lemma Overrun(size: nat, delta: nat, window: nat)
    requires size <= window < WORD && delta < WORD
    ensures var x := (size + delta) % WORD; if x > window || x < delta then size + delta > window else x == size + delta <= window
  {
  }

  class DecTable {
    var entries: array<Field>
    var n: int
    var curr: int
    var length: int
    var size: int
    var window: int
    var maxWindow: int

    ghost var contents: D.Table

    ghost predicate Valid()
      reads this, entries
    {
      && entries.Length == length && n == |contents| && Circle(entries[..], curr, contents)
      && size == D.Size(contents) <= window < WORD && length <= WORD / 16
    }

    constructor (htblSz: int)
      requires 0 <= htblSz < WORD
      ensures Valid() && contents == [] && window == maxWindow == htblSz && fresh(entries)
    {
      entries := new Field[0];
      n, curr, length, size, contents := 0, 0, 0, 0, [];
      window, maxWindow := htblSz, htblSz;
    }

    lemma ValidSize()
      requires Valid()
      ensures D.Size(contents) <= window < WORD
    {
    }

    /** Count how many of the oldest entries have to go until the size is at most `limit`. */
    method Drop(limit: int) returns (count: int, newSize: int)
      requires Valid() && 0 <= limit < size
      ensures 0 <= count < n && contents[n - count..] == D.Evict(contents, limit) && newSize == D.Size(contents[n - count..]) <= limit
    {
      CircleFits(entries[..], curr, contents);
      hide Circle, Wrap, Early, D.Size, D.Evict, D.EntrySize;
      count, newSize := n, size;
      var early := Early(curr, n, length);
      if n > 0 { WrapFirst(curr, n, length); }
      ghost var k := 0;
      assert contents[0..] == contents;
      while newSize > limit
        invariant 0 <= k <= n && count == n - k && newSize == D.Size(contents[k..])
        invariant k < n ==> early == Wrap(Early(curr, n, length), k, length)
        invariant forall i :: 0 <= i < k ==> D.Size(contents[i..]) > limit
        invariant newSize <= limit ==> k > 0
        decreases n - k
      {
        D.SizeFrom(contents, k);
        CircleOldest(entries[..], curr, contents, k);
        WrapNext(curr, n, k, length);
        newSize := newSize - D.EntrySize(entries[early]);
        early := early + 1;
        count := count - 1;
        if early == length {
          early := 0;
        }
        k := k + 1;
      }
      D.EvictAt(contents, limit, k);
    }

    /** Double the array of a full table.  `inPlace` tells whether the memory could be
        extended where it is; otherwise the entries are laid out afresh. */
    method Grow(inPlace: bool)
      requires Valid() && n == length && size + 32 <= window
      modifies `entries, `curr, `length
      ensures Valid() && n < length && fresh(entries) && (length == 2 * old(length) || (old(length) == 0 && length == 32))
    {
      SizeBound(contents);
      if length == 0 {
        length := 32;
        entries := new Field[32];
      } else if inPlace {
        GrowInPlace();
      } else {
        Relocate();
      }
    }

    method GrowInPlace()
      requires Valid() && n == length > 0 && 2 * length <= WORD / 16
      modifies `entries, `curr, `length
      ensures Valid() && length == 2 * old(length) && fresh(entries)
    {
      hide D.Size, Circle;
      ghost var a := entries[..];
      var b, tail := new Field[2 * length], length - curr;
      CircleCurr(a, curr, contents);
      forall i | 0 <= i < length { b[i] := entries[i]; }
      assert b[..][..length] == a;
      if curr == 0 {
        CircleGrowFlat(a, b[..], contents);
        curr := n;
      } else {
        forall i | 0 <= i < tail { b[2 * length - tail + i] := b[curr + i]; }
        assert b[..][..curr] == a[..curr];
        assert b[..][length + curr..] == a[curr..];
        CircleGrowInPlace(a, b[..], curr, contents);
      }
      length := 2 * length;
      entries := b;
    }

    method Relocate()
      requires Valid() && n == length > 0 && 2 * length <= WORD / 16
      modifies `entries, `curr, `length
      ensures Valid() && length == 2 * old(length) && fresh(entries)
    {
      hide D.Size, Circle;
      ghost var a := entries[..];
      var b, tail := new Field[2 * length], length - curr;
      CircleCurr(a, curr, contents);
      forall i | 0 <= i < tail { b[i] := entries[curr + i]; }
      forall i | 0 <= i < curr { b[tail + i] := entries[i]; }
      assert b[..][..length] == a[curr..] + a[..curr];
      CircleRelocate(a, b[..], curr, contents);
      curr := n;
      length := 2 * length;
      entries := b;
    }

    /** Add a header field to the table. */
    method AddIndex(f: Field, inPlace: bool) returns (r: Status)
      requires Valid()
      modifies this, entries
      ensures Valid() && window == old(window) && maxWindow == old(maxWindow)
      ensures entries == old(entries) || fresh(entries)
      ensures r == CompressionError <==> D.EntrySize(f) >= WORD
      ensures contents == if r.Ok? then D.Insert(old(contents), window, f) else old(contents)
    {
      hide Circle, D.Size, D.Evict;
      CircleFits(entries[..], curr, contents);
      var hdrLen := |f.name| + |f.value|;
      Overhead(hdrLen);
      var delta := (32 + hdrLen) % WORD;
      if delta < hdrLen {
        return CompressionError;
      }
      r := Ok;
      Overrun(size, delta, window);
      var newSize := (size + delta) % WORD;
      if newSize > window || newSize < delta {
        if delta <= window {
          var count;
          count, newSize := Drop(window - delta);
          newSize := newSize + delta;
          CircleDrop(entries[..], curr, contents, n - count);
          contents := contents[n - count..];
          n := count;
        } else {
          if n > 0 {
            n, curr, size := 0, 0, 0;
          }
          contents := [];
          CircleNone(entries[..], curr);
          return;
        }
      } else if n == length {
        Grow(inPlace);
      }
      Append(f, newSize);
    }

    /** Store an entry in the free slot. */
    method Append(f: Field, newSize: int)
      requires entries.Length == length && n == |contents| < length <= WORD / 16 && Circle(entries[..], curr, contents)
      requires newSize == D.Size(contents) + D.EntrySize(f) <= window < WORD
      modifies `n, `curr, `size, `contents, entries
      ensures Valid() && contents == old(contents) + [f]
    {
      hide Circle;
      CircleCurr(entries[..], curr, contents);
      CircleAdd(entries[..], curr, contents, f);
      entries[curr] := f;
      curr := curr + 1;
      if curr == length {
        curr := 0;
      }
      D.SizeConcat(contents, [f]);
      assert [f][1..] == [];
      contents := contents + [f];
      n := n + 1;
      size := newSize;
    }

    /** The entry an index refers to; `static` holds the static table. */
    method FindIndex(index: int, static': seq<Field>) returns (r: Option<Field>)
      requires Valid() && |static'| == D.STATIC_ENTRIES && 1 <= index < WORD
      ensures r == if index <= D.STATIC_ENTRIES then Some(static'[index - 1])
                   else if index - D.STATIC_ENTRIES <= |contents| then Some(D.Lookup(contents, index))
                   else None
    {
      if index <= D.STATIC_ENTRIES {
        r := Some(static'[index - 1]);
      } else if index - D.STATIC_ENTRIES <= n {
        var k, c := index - D.STATIC_ENTRIES, curr;
        CircleNewest(entries[..], curr, contents, k);
        if k <= c {
          c := c - k;
        } else {
          c := c + length - k;
        }
        r := Some(entries[c]);
      } else {
        r := None;
      }
    }

    /** A dynamic table size update. */
    method SetLength(newSize: int) returns (r: Status)
      requires Valid() && 0 <= newSize < WORD
      modifies `n, `size, `window, `contents
      ensures Valid()
      ensures r == CompressionError <==> newSize > maxWindow
      ensures if r.Ok? then window == newSize && contents == D.Evict(old(contents), newSize)
              else window == old(window) && contents == old(contents)
    {
      hide Circle, D.Size, D.Evict;
      CircleFits(entries[..], curr, contents);
      if newSize > maxWindow {
        return CompressionError;
      }
      if size > newSize {
        var count, sz := Drop(newSize);
        CircleDrop(entries[..], curr, contents, n - count);
        contents := contents[n - count..];
        n, size := count, sz;
      }
      window := newSize;
      r := Ok;
    }
  }
}
