/** Flow-control credit as section 6.9 of RFC 9113 counts it, over the history of a connection. */
module H2Credit {

  const MAX_WND_SIZE := 0x7FFF_FFFF
  const DEF_WND_SIZE := 0xFFFF

  /** What changes a window, in the order in which it happens. */
  datatype Step<S> =
    | Opened(stream: S)
    | Data(stream: S, n: nat)
    | ConnCredit(n: nat)
    | StreamCredit(stream: S, n: nat)
    | InitWindow(size: nat)

  function Last<T>(s: seq<T>): T
    requires s != []
  {
    s[|s| - 1]
  }

  function Before<T>(s: seq<T>): seq<T>
    requires s != []
  {
    s[..|s| - 1]
  }

  /** The initial window in force. */
  ghost function InitAt<S>(tr: seq<Step<S>>): nat {
    if tr == [] then DEF_WND_SIZE
    else if Last(tr).InitWindow? then Last(tr).size
    else InitAt(Before(tr))
  }

  /** Credit of the connection that is left. */
  ghost function ConnLeft<S>(tr: seq<Step<S>>): int {
    if tr == [] then DEF_WND_SIZE
    else
      match Last(tr)
      case Data(_, n) => ConnLeft(Before(tr)) - n
      case ConnCredit(n) => ConnLeft(Before(tr)) + n
      case _ => ConnLeft(Before(tr))
  }

  /** Credit of a stream that is left, since it was opened. */
  ghost function StreamLeft<S>(tr: seq<Step<S>>, s: S): int {
    if tr == [] then 0
    else
      var left := StreamLeft(Before(tr), s);
      match Last(tr)
      case Opened(x) => if x == s then InitAt(Before(tr)) else left
      case Data(x, n) => if x == s then left - n else left
      case StreamCredit(x, n) => if x == s then left + n else left
      case InitWindow(size) => left + size - InitAt(Before(tr))
      case ConnCredit(_) => left
  }

  /** The DATA sent, in order. */
  ghost function Datas<S>(tr: seq<Step<S>>): seq<(S, nat)> {
    if tr == [] then []
    else Datas(Before(tr)) + if Last(tr).Data? then [(Last(tr).stream, Last(tr).n)] else []
  }

  /** The credit granted and the streams opened, in order: all that does not come from the sender. */
  ghost function Grants<S>(tr: seq<Step<S>>): seq<Step<S>> {
    if tr == [] then [] else Grants(Before(tr)) + if Last(tr).Data? then [] else [Last(tr)]
  }

  lemma {:induction false} GrantsAppend<S>(tr: seq<Step<S>>, more: seq<Step<S>>)
    ensures Grants(tr + more) == Grants(tr) + Grants(more)
    decreases more
  {
    if more == [] {
      assert tr + more == tr;
    } else {
      GrantsAppend(tr, Before(more));
      assert Before(tr + more) == tr + Before(more) && Last(tr + more) == Last(more);
    }
  }

  lemma {:induction false} GrantsNone<S>(more: seq<Step<S>>)
    requires forall i :: 0 <= i < |more| ==> more[i].Data?
    ensures Grants(more) == []
    decreases more
  {
    if more != [] { GrantsNone(Before(more)); }
  }

  lemma {:induction false} GrantsAll<S>(more: seq<Step<S>>)
    requires forall i :: 0 <= i < |more| ==> !more[i].Data?
    ensures Grants(more) == more
    decreases more
  {
    if more != [] {
      GrantsAll(Before(more));
      assert more == Before(more) + [Last(more)];
    }
  }

  /** No DATA was sent beyond the credit of the connection or of its stream at that time. */
  ghost predicate Within<S>(tr: seq<Step<S>>) {
    forall k :: 0 <= k < |tr| && tr[k].Data? ==> Covered(tr[..k + 1])
  }

  ghost predicate Covered<S>(tr: seq<Step<S>>) {
    tr != [] && Last(tr).Data? ==> ConnLeft(tr) >= 0 && StreamLeft(tr, Last(tr).stream) >= 0
  }

  lemma {:induction false} StepAppend<S>(tr: seq<Step<S>>, x: Step<S>)
    ensures InitAt(tr + [x]) == if x.InitWindow? then x.size else InitAt(tr)
    ensures ConnLeft(tr + [x]) == ConnLeft(tr) - (if x.Data? then x.n else 0) + (if x.ConnCredit? then x.n else 0)
    ensures Datas(tr + [x]) == Datas(tr) + if x.Data? then [(x.stream, x.n)] else []
  {
    assert Before(tr + [x]) == tr && Last(tr + [x]) == x;
  }

  lemma {:induction false} LeftAppend<S>(tr: seq<Step<S>>, x: Step<S>, s: S)
    ensures StreamLeft(tr + [x], s) ==
      match x
      case Opened(y) => if y == s then InitAt(tr) else StreamLeft(tr, s)
      case Data(y, n) => StreamLeft(tr, s) - if y == s then n else 0
      case StreamCredit(y, n) => StreamLeft(tr, s) + if y == s then n else 0
      case InitWindow(size) => StreamLeft(tr, s) + size - InitAt(tr)
      case ConnCredit(_) => StreamLeft(tr, s)
  {
    assert Before(tr + [x]) == tr && Last(tr + [x]) == x;
  }

  lemma {:induction false} WithinAppend<S>(tr: seq<Step<S>>, x: Step<S>)
    requires Within(tr) && Covered(tr + [x])
    ensures Within(tr + [x])
  {
    var now := tr + [x];
    forall k | 0 <= k < |now| && now[k].Data? ensures Covered(now[..k + 1]) {
      assert now[..k + 1] == if k < |tr| then tr[..k + 1] else now;
    }
  }
}
