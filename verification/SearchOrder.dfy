/** Search order of the encoder index: which fields lie to the left and to the right of
    a place in the tree. */
module SearchOrder {
  import opened RbTree
  import opened HeaderOrder

  type Keys = map<int, Field>

  predicate Less(f: Field, g: Field) {
    Lex(Rank(f), Rank(g)) < 0
  }

  predicate SameName(f: Field, g: Field) {
    NameRank(f) == NameRank(g)
  }

  predicate Sorted(s: seq<int>, at: Keys) {
    && (forall i :: 0 <= i < |s| ==> s[i] in at)
    && (forall i, j :: 0 <= i < j < |s| ==> Less(at[s[i]], at[s[j]]))
  }

  /** Everything left of the path is smaller than `f`, everything right of it greater. */
  predicate Between(c: Ctx, f: Field, at: Keys) {
    && (forall o :: o in Before(c) ==> o in at && Less(at[o], f))
    && (forall o :: o in After(c) ==> o in at && Less(f, at[o]))
  }

  /** No field beside the path has the name of `f`. */
  ghost predicate NameOnlyBelow(c: Ctx, f: Field, at: Keys) {
    forall o :: o in Before(c) || o in After(c) ==> o in at && !SameName(at[o], f)
  }

  lemma {:induction false} FocusInorder(c: Ctx, t: Tree)
    requires t.Node?
    ensures Inorder(Plug(c, t)) == Before(c) + Inorder(t.left) + [t.off] + Inorder(t.right) + After(c)
  {
    PlugInorder(c, t);
    WalkInorder(t.left, [t.off] + Walk(t.right, []));
  }

  /** Fields right of the focused node are greater than it, and so are fields left of it smaller. */
  lemma {:induction false} FocusSides(c: Ctx, t: Tree, at: Keys)
    requires t.Node? && Sorted(Inorder(Plug(c, t)), at)
    ensures t.off in at
    ensures forall o :: o in Inorder(t.left) ==> o in at && Less(at[o], at[t.off])
    ensures forall o :: o in Inorder(t.right) ==> o in at && Less(at[t.off], at[o])
  {
    FocusInorder(c, t);
    var s, p := Inorder(Plug(c, t)), |Before(c)| + |Inorder(t.left)|;
    assert s[p] == t.off;
    forall o | o in Inorder(t.left) ensures o in at && Less(at[o], at[t.off]) {
      var i :| 0 <= i < |Inorder(t.left)| && Inorder(t.left)[i] == o;
      assert s[|Before(c)| + i] == o;
    }
    forall o | o in Inorder(t.right) ensures o in at && Less(at[t.off], at[o]) {
      var i :| 0 <= i < |Inorder(t.right)| && Inorder(t.right)[i] == o;
      assert s[p + 1 + i] == o;
    }
  }

  lemma LessTransitive(f: Field, g: Field, h: Field)
    requires Less(f, g) && Less(g, h)
    ensures Less(f, h)
  {
    LexTransitive(Rank(f), Rank(g), Rank(h));
  }

  /** Between two fields of one name only fields of that name can lie. */
  lemma NamesContiguous(f: Field, g: Field, h: Field)
    requires Less(f, g) && Less(g, h) && SameName(f, h)
    ensures SameName(f, g)
  {
    if !SameName(f, g) {
      NameDecides(f, g);
      NameDecides(g, h);
      LexFlip(NameRank(f), NameRank(g));
    }
  }

  lemma {:induction false} GoLeft(c: Ctx, t: Tree, f: Field, at: Keys)
    requires t.Node? && Sorted(Inorder(Plug(c, t)), at) && Between(c, f, at) && t.off in at && Less(f, at[t.off])
    ensures Between(InLeft(t.off, t.black, c, t.right), f, at)
    ensures NameOnlyBelow(c, f, at) && !SameName(at[t.off], f) ==> NameOnlyBelow(InLeft(t.off, t.black, c, t.right), f, at)
  {
    FocusSides(c, t, at);
    forall o | o in Inorder(t.right)
      ensures o in at && Less(f, at[o]) && (SameName(at[o], f) ==> SameName(at[t.off], f))
    {
      LessTransitive(f, at[t.off], at[o]);
      if SameName(at[o], f) { NamesContiguous(f, at[t.off], at[o]); }
    }
  }

  lemma {:induction false} GoRight(c: Ctx, t: Tree, f: Field, at: Keys)
    requires t.Node? && Sorted(Inorder(Plug(c, t)), at) && Between(c, f, at) && t.off in at && Less(at[t.off], f)
    ensures Between(InRight(t.off, t.black, c, t.left), f, at)
    ensures NameOnlyBelow(c, f, at) && !SameName(at[t.off], f) ==> NameOnlyBelow(InRight(t.off, t.black, c, t.left), f, at)
  {
    FocusSides(c, t, at);
    forall o | o in Inorder(t.left)
      ensures o in at && Less(at[o], f) && (SameName(at[o], f) ==> SameName(at[t.off], f))
    {
      LessTransitive(at[o], at[t.off], f);
      if SameName(at[o], f) { NamesContiguous(at[o], at[t.off], f); }
    }
  }

  /** A new field put at its place keeps the order. */
  lemma InsertSorted(a: seq<int>, b: seq<int>, n: int, f: Field, at: Keys)
    requires Sorted(a + b, at) && n !in at
    requires forall o :: o in a ==> o in at && Less(at[o], f)
    requires forall o :: o in b ==> o in at && Less(f, at[o])
    ensures Sorted(a + [n] + b, at[n := f])
  {
    var s, s', at' := a + b, a + [n] + b, at[n := f];
    forall i, j | 0 <= i < j < |s'| ensures s'[i] in at' && s'[j] in at' && Less(at'[s'[i]], at'[s'[j]]) {
      var i', j' := if i <= |a| then i else i - 1, if j <= |a| then j else j - 1;
      if i != |a| { assert s[i'] == s'[i] && s[i'] in at; }
      if j != |a| { assert s[j'] == s'[j] && s[j'] in at; }
      if i == |a| { assert s'[j] in b; }
      if j == |a| { assert s'[i] in a; }
    }
    assert forall i :: 0 <= i < |s'| ==> s'[i] in at' by {
      forall i | 0 <= i < |s'| ensures s'[i] in at' {
        if i < |a| { assert s'[i] == s[i]; } else if i > |a| { assert s'[i] == s[i - 1]; }
      }
    }
  }

  lemma {:induction false} WithoutMember(s: seq<int>, x: int, o: int)
    ensures o in Without(s, x) <==> o in s && o != x
    decreases s
  {
    if s != [] {
      WithoutMember(s[1..], x, o);
      assert o in s <==> o == s[0] || o in s[1..];
    }
  }

  lemma {:induction false} WithoutSorted(s: seq<int>, x: int, at: Keys)
    requires Sorted(s, at)
    ensures Sorted(Without(s, x), at - {x})
    decreases s
  {
    if s != [] {
      var r := s[1..];
      forall i, j | 0 <= i < j < |r| ensures r[i] in at && r[j] in at && Less(at[r[i]], at[r[j]]) {
        assert r[i] == s[i + 1] && r[j] == s[j + 1];
      }
      forall i | 0 <= i < |r| ensures r[i] in at {
        assert r[i] == s[i + 1];
      }
      WithoutSorted(r, x, at);
      if s[0] != x {
        var w := Without(r, x);
        forall j | 0 <= j < |w| ensures Less(at[s[0]], at[w[j]]) {
          WithoutMember(r, x, w[j]);
          var k :| 0 <= k < |r| && r[k] == w[j];
          assert r[k] == s[k + 1];
        }
      }
    }
  }
}
