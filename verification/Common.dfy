/** Notions several parts of the program share. */
module Common {

  const WORD := 0x1_0000_0000  // range of an unsigned int

  datatype Option<T> = None | Some(value: T)

  /** A string handed over in chunks or fragments, put together. */
  function Flatten<T>(chunks: seq<seq<T>>): seq<T> {
    if chunks == [] then [] else chunks[0] + Flatten(chunks[1..])
  }

  lemma {:induction false} FlattenFrom<T>(chunks: seq<seq<T>>, i: nat)
    requires i < |chunks|
    ensures Flatten(chunks[i..]) == chunks[i] + Flatten(chunks[i + 1..])
  {
    assert chunks[i..][1..] == chunks[i + 1..];
  }

  lemma {:induction false} FlattenConcat<T>(a: seq<seq<T>>, b: seq<seq<T>>)
    ensures Flatten(a + b) == Flatten(a) + Flatten(b)
    decreases a
  {
    if a == [] {
      assert a + b == b;
    } else {
      assert (a + b)[1..] == a[1..] + b;
      FlattenConcat(a[1..], b);
    }
  }

  lemma {:induction false} FlattenUpTo<T>(chunks: seq<seq<T>>, k: nat)
    requires k < |chunks|
    ensures Flatten(chunks[..k + 1]) == Flatten(chunks[..k]) + chunks[k]
  {
    FlattenConcat(chunks[..k], [chunks[k]]);
    assert chunks[..k + 1] == chunks[..k] + [chunks[k]] && [chunks[k]][1..] == [];
    assert Flatten([chunks[k]]) == chunks[k];
  }

  /** A string cut into pieces of given lengths, as long as there is something left for the next one. */
  function Pieces<T>(s: seq<T>, cuts: seq<nat>): (frags: seq<seq<T>>)
    ensures frags != [] && Flatten(frags) == s && (s != [] ==> forall i :: 0 <= i < |frags| ==> frags[i] != [])
    decreases cuts
  {
    if cuts == [] then
      assert [s][1..] == [];
      [s]
    else if 0 < cuts[0] < |s| then [s[..cuts[0]]] + Pieces(s[cuts[0]..], cuts[1..])
    else Pieces(s, cuts[1..])
  }

  function PieceLengths<T>(frags: seq<seq<T>>): seq<nat> {
    seq(|frags|, i requires 0 <= i < |frags| => |frags[i]|)
  }

  /** Any division into fragments that are not empty comes about. */
  lemma {:induction false} AnyPieces<T>(frags: seq<seq<T>>)
    requires frags != [] && forall i :: 0 <= i < |frags| ==> frags[i] != []
    ensures Pieces(Flatten(frags), PieceLengths(frags)) == frags
    decreases frags
  {
    var s, rest := Flatten(frags), frags[1..];
    assert PieceLengths(frags)[1..] == PieceLengths(rest);
    if rest == [] {
      assert s == frags[0];
      assert PieceLengths(rest) == [];
    } else {
      AnyPieces(rest);
      assert s[..|frags[0]|] == frags[0] && s[|frags[0]|..] == Flatten(rest);
      assert |Flatten(rest)| > 0 by { assert Flatten(rest) == rest[0] + Flatten(rest[1..]); }
    }
  }

  method Cut<T>(s: seq<T>, cuts: seq<nat>) returns (frags: seq<seq<T>>)
    requires s != []
    ensures frags == Pieces(s, cuts)
    ensures Flatten(frags) == s && frags != [] && forall i :: 0 <= i < |frags| ==> frags[i] != []
  {
    frags := [];
    var rest := s;
    for i := 0 to |cuts|
      invariant rest != [] && frags + Pieces(rest, cuts[i..]) == Pieces(s, cuts)
    {
      assert cuts[i..][1..] == cuts[i + 1..];
      if 0 < cuts[i] < |rest| {
        frags := frags + [rest[..cuts[i]]];
        rest := rest[cuts[i]..];
      }
    }
    frags := frags + [rest];
  }

  /** The lower case of an ASCII letter. */
  function LowerByte(b: int): int {
    if 0x41 <= b <= 0x5A then b + 32 else b
  }

  /** A set within another of the same size is that set. */
  lemma SameSet<T>(a: set<T>, b: set<T>)
    requires a <= b && |a| == |b|
    ensures a == b
  {
    assert b == a + (b - a) && |b| == |a| + |b - a|;
  }
}
