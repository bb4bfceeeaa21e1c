/** Frames of an HTTP/2 response and what makes a sequence of them legal (section 8.1 of RFC 9113). */
module H2Frames {
  import opened Common

  datatype Kind = Headers | Continuation | Data

  datatype Frame = Frame(kind: Kind, length: nat, endHeaders: bool, endStream: bool)


  function Lengths(fs: seq<Frame>): nat {
    if fs == [] then 0 else Lengths(fs[..|fs| - 1]) + fs[|fs| - 1].length
  }

  /** A field block of `total` bytes of which `left` are still to be sent: HEADERS and CONTINUATION
      frames, END_HEADERS on the last one only, END_STREAM on the first one if `eos`. */
  ghost predicate BlockOk(fs: seq<Frame>, left: nat, total: nat, eos: bool) {
    && Lengths(fs) + left == total
    && forall i :: 0 <= i < |fs| ==>
         && fs[i].kind == (if i == 0 then Headers else Continuation) && fs[i].length >= 1
         && (fs[i].endHeaders <==> i == |fs| - 1 && left == 0)
         && (fs[i].endStream <==> i == 0 && eos)
  }

  /** A body of `total` bytes of which `left` are still to be sent; END_STREAM on the last frame if `eos`. */
  ghost predicate BodyOk(fs: seq<Frame>, left: nat, total: nat, eos: bool) {
    && Lengths(fs) + left == total
    && (forall i :: 0 <= i < |fs| ==>
         && fs[i].kind == Data && !fs[i].endHeaders && (total < WORD ==> fs[i].length >= 1)
         && (fs[i].endStream <==> i == |fs| - 1 && left == 0 && eos))
    && (total >= WORD ==> left >= WORD)
  }

  /** Lengths of the parts of a response. */
  datatype Plan = Plan(h: nat, b: nat, t: nat)

  /** A whole response: HEADERS CONTINUATION* DATA* (HEADERS CONTINUATION*)?  */
  ghost predicate Legal(fs: seq<Frame>, plan: Plan) {
    exists h, b, t :: Parts(fs, plan, h, b, t)
  }

  ghost predicate Parts(fs: seq<Frame>, plan: Plan, h: seq<Frame>, b: seq<Frame>, t: seq<Frame>) {
    && fs == h + b + t && h != []
    && BlockOk(h, 0, plan.h, plan.b == 0 && plan.t == 0)
    && BodyOk(b, 0, plan.b, plan.t == 0)
    && BlockOk(t, 0, plan.t, true)
  }

  // ---------------------------------------------------------------- appending frames

  lemma {:induction false} LengthsAppend(fs: seq<Frame>, f: Frame)
    ensures Lengths(fs + [f]) == Lengths(fs) + f.length
  {
    assert (fs + [f])[..|fs|] == fs;
  }

  lemma BlockAppend(fs: seq<Frame>, left: nat, total: nat, eos: bool, f: Frame)
    requires BlockOk(fs, left, total, eos) && 1 <= f.length <= left && (fs == [] || left > 0)
    requires f.kind == (if fs == [] then Headers else Continuation)
    requires (f.endHeaders <==> f.length == left) && (f.endStream <==> fs == [] && eos)
    ensures BlockOk(fs + [f], left - f.length, total, eos)
  {
    LengthsAppend(fs, f);
  }

  lemma BodyAppend(fs: seq<Frame>, left: nat, total: nat, eos: bool, f: Frame)
    requires BodyOk(fs, left, total, eos) && f.length <= left && left > 0
    requires f.kind == Data && !f.endHeaders && (f.endStream <==> f.length == left && eos)
    requires (total < WORD ==> f.length >= 1) && (total >= WORD ==> left - f.length >= WORD)
    ensures BodyOk(fs + [f], left - f.length, total, eos)
  {
    LengthsAppend(fs, f);
  }

  lemma {:induction false} LengthsPositive(fs: seq<Frame>)
    requires forall i :: 0 <= i < |fs| ==> fs[i].length >= 1
    ensures Lengths(fs) >= |fs|
  {
    if fs != [] { LengthsPositive(fs[..|fs| - 1]); }
  }

  ghost function CountEnds(fs: seq<Frame>): nat {
    if fs == [] then 0 else CountEnds(fs[..|fs| - 1]) + if fs[|fs| - 1].endStream then 1 else 0
  }

  lemma {:induction false} CountConcat(a: seq<Frame>, b: seq<Frame>)
    ensures CountEnds(a + b) == CountEnds(a) + CountEnds(b)
    decreases b
  {
    if b == [] {
      assert a + b == a;
    } else {
      assert (a + b)[..|a + b| - 1] == a + b[..|b| - 1];
      CountConcat(a, b[..|b| - 1]);
    }
  }

  lemma {:induction false} CountNone(fs: seq<Frame>)
    requires forall i :: 0 <= i < |fs| ==> !fs[i].endStream
    ensures CountEnds(fs) == 0
  {
    if fs != [] { CountNone(fs[..|fs| - 1]); }
  }

  lemma {:induction false} CountFirst(fs: seq<Frame>)
    requires fs != [] && fs[0].endStream && forall i :: 1 <= i < |fs| ==> !fs[i].endStream
    ensures CountEnds(fs) == 1
  {
    assert fs == [fs[0]] + fs[1..];
    CountConcat([fs[0]], fs[1..]);
    CountNone(fs[1..]);
    assert [fs[0]][..0] == [];
  }

  lemma {:induction false} CountLast(fs: seq<Frame>)
    requires fs != [] && fs[|fs| - 1].endStream && forall i :: 0 <= i < |fs| - 1 ==> !fs[i].endStream
    ensures CountEnds(fs) == 1
  {
    CountNone(fs[..|fs| - 1]);
  }

  lemma {:induction false} LengthsZero(fs: seq<Frame>)
    requires Lengths(fs) == 0 && forall i :: 0 <= i < |fs| ==> fs[i].length >= 1
    ensures fs == []
  {
    LengthsPositive(fs);
  }

  /** A legal response ends its stream exactly once. */
  lemma {:induction false} LegalEndsOnce(fs: seq<Frame>, plan: Plan)
    requires Legal(fs, plan) && plan.b < WORD
    ensures CountEnds(fs) == 1
  {
    var h, b, t :| Parts(fs, plan, h, b, t);
    CountConcat(h + b, t);
    CountConcat(h, b);
    assert Lengths([]) == 0;
    if plan.t > 0 {
      assert t != [];
      CountFirst(t);
      CountNone(h);
      CountNone(b);
    } else {
      LengthsZero(t);
      if plan.b > 0 {
        assert b != [];
        CountLast(b);
        CountNone(h);
      } else {
        LengthsZero(b);
        CountFirst(h);
      }
    }
  }
}
