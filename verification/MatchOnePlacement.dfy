/** Where MATCH_ONE may stand in a probe. It is meant not to affect the outcome; this module says
    exactly when it does not. */
module MatchOnePlacement {
  import opened Probe

  predicate Connective(t: Token) {
    t.OpAnd? || t.OpOr?
  }

  /** What may follow an operand: connectives with their operands, and MATCH_ONE. */
  predicate IsTail(ts: seq<Token>) {
    || ts == []
    || (ts[0].MatchOne? && IsTail(ts[1..]))
    || (|ts| >= 2 && Connective(ts[0]) && IsOperand(ts[1]) && IsTail(ts[2..]))
  }

  /** The token lists of expressions. */
  predicate Grammatical(ts: seq<Token>) {
    ts != [] && IsOperand(ts[0]) && IsTail(ts[1..])
  }

  /** The running result `ret` behind one connective and its operand. */
  predicate Applied(bus: Bus, passed: seq<string>, ret: bool, op: Token, t: Token) {
    if op.OpAnd? then ret && Holds(bus, passed, t) else ret || Holds(bus, passed, t)
  }

  /** The running result `ret` carried through a tail. */
  predicate Carried(bus: Bus, passed: seq<string>, ret: bool, ts: seq<Token>)
    requires IsTail(ts)
    decreases |ts|
  {
    if ts == [] then ret
    else if ts[0].MatchOne? then Carried(bus, passed, ret, ts[1..])
    else Carried(bus, passed, Applied(bus, passed, ret, ts[0], ts[1]), ts[2..])
  }

  /** A tail decides by itself: it has an AND with an operand that fails, or an OR with one that holds. */
  predicate Decides(bus: Bus, passed: seq<string>, ts: seq<Token>)
    requires IsTail(ts)
  {
    && ts != []
    && if ts[0].MatchOne? then Decides(bus, passed, ts[1..])
       else (ts[0].OpAnd? != Holds(bus, passed, ts[1])) || Decides(bus, passed, ts[2..])
  }

  lemma {:induction false} DecidesIs(bus: Bus, passed: seq<string>, ts: seq<Token>)
    requires IsTail(ts)
    ensures Carried(bus, passed, true, ts) == Carried(bus, passed, false, ts) <==> Decides(bus, passed, ts)
  {
    if ts != [] {
      if ts[0].MatchOne? {
        DecidesIs(bus, passed, ts[1..]);
      } else {
        DecidesIs(bus, passed, ts[2..]);
      }
    }
  }

  /** The state between operands: at least one was seen, and no connective waits for one. */
  predicate Settled(s: Running) {
    !s.first && !Connective(s.last)
  }

  /** A settled state carries its result through the tail behind it. */
  lemma {:induction false} FoldTail(bus: Bus, passed: seq<string>, front: seq<Token>, ts: seq<Token>)
    requires IsTail(ts) && Settled(Fold(bus, passed, front))
    ensures Fold(bus, passed, front + ts).ret == Carried(bus, passed, Fold(bus, passed, front).ret, ts)
    decreases |ts|
  {
    if ts == [] {
      assert front + ts == front;
    } else if ts[0].MatchOne? {
      FoldLast(bus, passed, front, ts[0]);
      assert front + ts == (front + [ts[0]]) + ts[1..];
      FoldTail(bus, passed, front + [ts[0]], ts[1..]);
    } else {
      FoldLastTwo(bus, passed, front, ts[0], ts[1]);
      assert front + ts == (front + [ts[0], ts[1]]) + ts[2..];
      FoldTail(bus, passed, front + [ts[0], ts[1]], ts[2..]);
    }
  }

  lemma FoldFront(bus: Bus, passed: seq<string>, front: seq<Token>)
    ensures Fold(bus, passed, front).first <==> front == []
    ensures front != [] ==> Fold(bus, passed, front).last == front[|front| - 1]
  {
  }

  lemma FoldOne(bus: Bus, passed: seq<string>, t: Token)
    ensures Fold(bus, passed, [t]) == Next(bus, passed, START, t)
  {
    FoldLast(bus, passed, [], t);
    assert [] + [t] == [t];
  }

  /** Behind an operand: MATCH_ONE changes nothing. */
  lemma BehindOperand(bus: Bus, passed: seq<string>, front: seq<Token>, ts: seq<Token>)
    requires front != [] && !Connective(front[|front| - 1]) && IsTail(ts)
    ensures Fold(bus, passed, front + [MatchOne] + ts).ret == Fold(bus, passed, front + ts).ret
  {
    FoldFront(bus, passed, front);
    FoldLast(bus, passed, front, MatchOne);
    FoldTail(bus, passed, front, ts);
    FoldTail(bus, passed, front + [MatchOne], ts);
  }

  /** In front of everything: the first operand is taken for false. */
  lemma InFront(bus: Bus, passed: seq<string>, t: Token, ts: seq<Token>)
    requires IsOperand(t) && IsTail(ts)
    ensures Fold(bus, passed, [MatchOne, t] + ts).ret == Carried(bus, passed, false, ts)
    ensures Fold(bus, passed, [t] + ts).ret == Carried(bus, passed, Holds(bus, passed, t), ts)
  {
    FoldLastTwo(bus, passed, [], MatchOne, t);
    assert [] + [MatchOne, t] == [MatchOne, t];
    FoldOne(bus, passed, t);
    FoldTail(bus, passed, [MatchOne, t], ts);
    FoldTail(bus, passed, [t], ts);
  }

  /** Behind a connective: the connective and its operand are ignored. */
  lemma BehindConnective(bus: Bus, passed: seq<string>, front: seq<Token>, op: Token, t: Token, ts: seq<Token>)
    requires front != [] && !Connective(front[|front| - 1]) && Connective(op) && IsOperand(t) && IsTail(ts)
    ensures Fold(bus, passed, front + [op, MatchOne, t] + ts).ret ==
            Fold(bus, passed, front + ts).ret ==
            Carried(bus, passed, Fold(bus, passed, front).ret, ts)
    ensures Fold(bus, passed, front + [op, t] + ts).ret ==
            Carried(bus, passed, Applied(bus, passed, Fold(bus, passed, front).ret, op, t), ts)
  {
    FoldFront(bus, passed, front);
    FoldTail(bus, passed, front, ts);
    FoldLastTwo(bus, passed, front, op, MatchOne);
    FoldLast(bus, passed, front + [op, MatchOne], t);
    assert front + [op, MatchOne] + [t] == front + [op, MatchOne, t];
    FoldTail(bus, passed, front + [op, MatchOne, t], ts);
    FoldLastTwo(bus, passed, front, op, t);
    FoldTail(bus, passed, front + [op, t], ts);
  }

  /** An expression with FALSE for its leftmost operand. */
  function FirstFalse(e: Expr): (r: Expr)
    ensures WellFormed(e) ==> WellFormed(r)
  {
    match e
    case Leaf(_) => Leaf(BoolFalse)
    case And(left, t) => And(FirstFalse(left), t)
    case Or(left, t) => Or(FirstFalse(left), t)
    case One(left) => One(FirstFalse(left))
  }

  lemma {:induction false} FoldLeading(bus: Bus, passed: seq<string>, e: Expr)
    requires WellFormed(e)
    ensures var s := Fold(bus, passed, [MatchOne] + Tokens(e));
            s.ret == Meaning(bus, passed, FirstFalse(e)) && Settled(s)
  {
    match e
    case Leaf(t) =>
      FoldLastTwo(bus, passed, [], MatchOne, t);
      assert [] + [MatchOne, t] == [MatchOne, t] == [MatchOne] + Tokens(e);
    case And(left, t) =>
      var front := [MatchOne] + Tokens(left);
      FoldLeading(bus, passed, left);
      FoldLastTwo(bus, passed, front, OpAnd, t);
      assert [MatchOne] + Tokens(e) == front + [OpAnd, t];
    case Or(left, t) =>
      var front := [MatchOne] + Tokens(left);
      FoldLeading(bus, passed, left);
      FoldLastTwo(bus, passed, front, OpOr, t);
      assert [MatchOne] + Tokens(e) == front + [OpOr, t];
    case One(left) =>
      FoldLeading(bus, passed, left);
      FoldLast(bus, passed, [MatchOne] + Tokens(left), MatchOne);
      assert [MatchOne] + Tokens(e) == [MatchOne] + Tokens(left) + [MatchOne];
  }

  /** MATCH_ONE in front of a probe: the probe with FALSE for its first operand. */
  lemma LeadingMatchOne(bus: Bus, passed: seq<string>, e: Expr)
    requires WellFormed(e)
    ensures Verdict(bus, passed, [MatchOne] + Tokens(e)) <==>
              AllLegal(bus, Tokens(e)) && Meaning(bus, passed, FirstFalse(e))
  {
    FoldLeading(bus, passed, e);
    var ts := [MatchOne] + Tokens(e);
    assert ts[1..] == Tokens(e);
    assert forall i :: 0 <= i < |Tokens(e)| ==> ts[i + 1] == Tokens(e)[i];
  }

  /** MATCH_ONE behind the connective of an operand: the operand is ignored. */
  lemma OperandIgnored(bus: Bus, passed: seq<string>, e: Expr, op: Token, t: Token, ts: seq<Token>)
    requires WellFormed(e) && Connective(op) && IsOperand(t) && IsTail(ts)
    requires AllLegal(bus, Tokens(e) + [op, t] + ts)
    ensures Verdict(bus, passed, Tokens(e) + [op, MatchOne, t] + ts) <==> Verdict(bus, passed, Tokens(e) + ts)
  {
    ExprEnds(e);
    BehindConnective(bus, passed, Tokens(e), op, t, ts);
    LegalTokens(bus, Tokens(e) + [op, t] + ts, Tokens(e) + [op, MatchOne, t] + ts);
    LegalTokens(bus, Tokens(e) + [op, t] + ts, Tokens(e) + ts);
  }

  lemma LegalTokens(bus: Bus, from: seq<Token>, to: seq<Token>)
    requires AllLegal(bus, from) && forall t :: t in to ==> t in from || !t.DbusProbe?
    ensures AllLegal(bus, to)
  {
    forall i | 0 <= i < |to| ensures Legal(bus, to[i]) {
      assert to[i] in to;
    }
  }

  lemma {:induction false} ExprEnds(e: Expr)
    requires WellFormed(e)
    ensures Tokens(e) != [] && !Connective(Tokens(e)[|Tokens(e)| - 1])
  {
  }

  /** Every expression's tokens are grammatical, so what follows holds of all expressions. */
  lemma {:induction false} ExprIsGrammatical(e: Expr)
    requires WellFormed(e)
    ensures Grammatical(Tokens(e))
  {
    match e
    case Leaf(t) =>
    case And(left, t) =>
      ExprIsGrammatical(left);
      TailAppend(Tokens(left)[1..], [OpAnd, t]);
      assert Tokens(e)[1..] == Tokens(left)[1..] + [OpAnd, t];
    case Or(left, t) =>
      ExprIsGrammatical(left);
      TailAppend(Tokens(left)[1..], [OpOr, t]);
      assert Tokens(e)[1..] == Tokens(left)[1..] + [OpOr, t];
    case One(left) =>
      ExprIsGrammatical(left);
      TailAppend(Tokens(left)[1..], [MatchOne]);
      assert Tokens(e)[1..] == Tokens(left)[1..] + [MatchOne];
  }

  lemma {:induction false} TailAppend(a: seq<Token>, b: seq<Token>)
    requires IsTail(a) && IsTail(b)
    ensures IsTail(a + b)
    decreases |a|
  {
    if a == [] {
      assert a + b == b;
    } else if a[0].MatchOne? {
      TailAppend(a[1..], b);
      assert (a + b)[1..] == a[1..] + b;
    } else {
      TailAppend(a[2..], b);
      assert (a + b)[2..] == a[2..] + b;
    }
  }

  /** A place in a tail is behind an operand, with a tail behind it, or between a connective and its
      operand. */
  predicate TailPlace(ts: seq<Token>, k: nat) {
    && k <= |ts|
    && if k == 0 || !Connective(ts[k - 1]) then IsTail(ts[k..])
       else k < |ts| && IsOperand(ts[k]) && IsTail(ts[k + 1..]) && (k == 1 || !Connective(ts[k - 2]))
  }

  lemma Drop(ts: seq<Token>, n: nat, m: nat)
    requires n + m <= |ts|
    ensures ts[n..][m..] == ts[n + m..]
  {
  }

  /** A place in what follows the first `n` tokens, none of them at its edge a connective. */
  lemma PlaceBehind(ts: seq<Token>, n: nat, m: nat)
    requires 0 < n && n + m <= |ts| && !Connective(ts[n - 1]) && TailPlace(ts[n..], m)
    ensures TailPlace(ts, n + m)
  {
    Drop(ts, n, m);
    if n + m < |ts| {
      Drop(ts, n, m + 1);
    }
    assert forall i :: 0 <= i < |ts| - n ==> ts[n..][i] == ts[n + i];
  }

  lemma {:induction false} TailPlaces(ts: seq<Token>, k: nat)
    requires IsTail(ts) && k <= |ts|
    ensures TailPlace(ts, k)
    decreases |ts|
  {
    if k > 0 {
      var n := if ts[0].MatchOne? then 1 else 2;
      if k >= n {
        TailPlaces(ts[n..], k - n);
        PlaceBehind(ts, n, k - n);
      }
    }
  }

  /** The skipped operand makes no difference where it stands: in front, it does not hold; behind
      `front` and a connective, it leaves the result of `front` as it is. */
  predicate NoDifference(bus: Bus, passed: seq<string>, front: seq<Token>, t: Token) {
    if front == [] then !Holds(bus, passed, t)
    else
      var ret := Fold(bus, passed, front[..|front| - 1]).ret;
      Applied(bus, passed, ret, front[|front| - 1], t) == ret
  }

  /** When MATCH_ONE between `front` and `back` keeps the verdict. */
  predicate Harmless(bus: Bus, passed: seq<string>, front: seq<Token>, back: seq<Token>)
    requires Grammatical(front + back)
  {
    || (front != [] && !Connective(front[|front| - 1]))
    || (&& back != [] && IsTail(back[1..])
        && (NoDifference(bus, passed, front, back[0]) || Decides(bus, passed, back[1..])))
  }

  lemma CarriedSame(bus: Bus, passed: seq<string>, a: bool, b: bool, ts: seq<Token>)
    requires IsTail(ts)
    ensures Carried(bus, passed, a, ts) == Carried(bus, passed, b, ts) <==> a == b || Decides(bus, passed, ts)
  {
    DecidesIs(bus, passed, ts);
  }

  lemma FirstKept(bus: Bus, passed: seq<string>, back: seq<Token>)
    requires Grammatical(back)
    ensures Fold(bus, passed, [MatchOne] + back).ret == Fold(bus, passed, back).ret <==>
              NoDifference(bus, passed, [], back[0]) || Decides(bus, passed, back[1..])
  {
    var t, ts := back[0], back[1..];
    assert back == [t] + ts && [MatchOne] + back == [MatchOne, t] + ts;
    InFront(bus, passed, t, ts);
    CarriedSame(bus, passed, false, Holds(bus, passed, t), ts);
  }

  /** Where a grammatical list may be cut. */
  lemma Cut(front: seq<Token>, back: seq<Token>)
    requires Grammatical(front + back) && front != []
    ensures !Connective(front[|front| - 1]) ==> IsTail(back)
    ensures Connective(front[|front| - 1]) ==>
              |front| >= 2 && !Connective(front[|front| - 2]) && back != [] && IsOperand(back[0]) && IsTail(back[1..])
  {
    var ts, k := (front + back)[1..], |front| - 1;
    assert ts == front[1..] + back;
    TailPlaces(ts, k);
    assert ts[k..] == back && (back != [] ==> ts[k + 1..] == back[1..] && ts[k] == back[0]);
    assert k > 0 ==> ts[k - 1] == front[k];
    assert k > 1 ==> ts[k - 2] == front[k - 1];
  }

  lemma FoldKept(bus: Bus, passed: seq<string>, front: seq<Token>, back: seq<Token>)
    requires Grammatical(front + back)
    ensures Fold(bus, passed, front + [MatchOne] + back).ret == Fold(bus, passed, front + back).ret <==>
              Harmless(bus, passed, front, back)
  {
    if front == [] {
      assert front + back == back && front + [MatchOne] + back == [MatchOne] + back;
      FirstKept(bus, passed, back);
    } else {
      Cut(front, back);
      var k := |front| - 1;
      if !Connective(front[k]) {
        BehindOperand(bus, passed, front, back);
      } else {
        assert front == front[..k] + [front[k]];
        BetweenKept(bus, passed, front[..k], front[k], back);
      }
    }
  }

  lemma BetweenKept(bus: Bus, passed: seq<string>, front: seq<Token>, op: Token, back: seq<Token>)
    requires front != [] && !Connective(front[|front| - 1]) && Connective(op)
    requires back != [] && IsOperand(back[0]) && IsTail(back[1..])
    ensures Fold(bus, passed, front + [op] + [MatchOne] + back).ret == Fold(bus, passed, front + [op] + back).ret <==>
              NoDifference(bus, passed, front + [op], back[0]) || Decides(bus, passed, back[1..])
  {
    var ret := Fold(bus, passed, front).ret;
    BehindConnective(bus, passed, front, op, back[0], back[1..]);
    assert front + [op] + [MatchOne] + back == front + [op, MatchOne, back[0]] + back[1..];
    assert front + [op] + back == front + [op, back[0]] + back[1..];
    assert (front + [op])[..|front|] == front;
    CarriedSame(bus, passed, ret, Applied(bus, passed, ret, op, back[0]), back[1..]);
  }

  /** MATCH_ONE keeps the verdict exactly if a D-Bus statement is malformed, or it stands behind an
      operand, or the operand it makes the evaluation skip makes no difference, or what follows decides
      by itself. */
  lemma MatchOneKeepsVerdict(bus: Bus, passed: seq<string>, front: seq<Token>, back: seq<Token>)
    requires Grammatical(front + back)
    ensures Verdict(bus, passed, front + [MatchOne] + back) == Verdict(bus, passed, front + back) <==>
              !AllLegal(bus, front + back) || Harmless(bus, passed, front, back)
  {
    FoldKept(bus, passed, front, back);
    var with, without := front + [MatchOne] + back, front + back;
    if AllLegal(bus, without) {
      LegalTokens(bus, without, with);
    }
    if AllLegal(bus, with) {
      LegalTokens(bus, with, without);
    }
  }

  /** Both ways in which MATCH_ONE changes a verdict, and one in which a leading one does not. */
  lemma MisplacedExamples(bus: Bus, passed: seq<string>)
    ensures !Verdict(bus, passed, [MatchOne, BoolTrue]) && Verdict(bus, passed, [BoolTrue])
    ensures Verdict(bus, passed, [BoolTrue, OpAnd, MatchOne, BoolFalse])
            && !Verdict(bus, passed, [BoolTrue, OpAnd, BoolFalse])
    ensures Verdict(bus, passed, [MatchOne, BoolFalse, OpOr, BoolTrue])
  {
    LeadingMatchOne(bus, passed, Leaf(BoolTrue));
    VerdictIsMeaning(bus, passed, Leaf(BoolTrue));
    assert [MatchOne] + Tokens(Leaf(BoolTrue)) == [MatchOne, BoolTrue];
    OperandIgnored(bus, passed, Leaf(BoolTrue), OpAnd, BoolFalse, []);
    VerdictIsMeaning(bus, passed, And(Leaf(BoolTrue), BoolFalse));
    assert [BoolTrue] + [OpAnd, MatchOne, BoolFalse] + [] == [BoolTrue, OpAnd, MatchOne, BoolFalse];
    assert [BoolTrue] + [] == [BoolTrue] && [BoolTrue] + [OpAnd, BoolFalse] == [BoolTrue, OpAnd, BoolFalse];
    LeadingMatchOne(bus, passed, Or(Leaf(BoolFalse), BoolTrue));
    assert [MatchOne] + Tokens(Or(Leaf(BoolFalse), BoolTrue)) == [MatchOne, BoolFalse, OpOr, BoolTrue];
  }
}
