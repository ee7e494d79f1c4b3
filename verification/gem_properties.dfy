/** Properties of the GEM decision rule, stated against a declarative
    description of when each instrument is chosen rather than against the
    fold the rule runs. */
module GemProperties {
  import opened Momentum
  import opened Gem

  /** The position of a ticker in the scan order: CSPX.L before IWDA.AS. */
  function Rank(t: Ticker): nat {
    match t
    case CSPX => 0
    case IWDA => 1
    case VUTY => 2
  }

  /** Equity `e` wins when it is present with a positive score, compares
      strictly greater than every present equity scanned before it, and no
      present equity scanned after it compares strictly greater than it.
      An undefined score compares greater than nothing and nothing compares
      greater than it, so an undefined equity scanned first blocks every
      later one. */
  ghost predicate EquityWins(m: map<Ticker, Mom>, e: Ticker) {
    && IsEquity(e)
    && e in m
    && Positive(m[e])
    && (forall o :: IsEquity(o) && o in m && Rank(o) < Rank(e) ==> Gt(m[e], m[o]))
    && (forall o :: IsEquity(o) && o in m && Rank(e) < Rank(o) ==> !Gt(m[o], m[e]))
  }

  /** No equity wins. */
  ghost predicate NoEquityWins(m: map<Ticker, Mom>) {
    forall e :: !EquityWins(m, e)
  }

  /** The equity chosen by the fold is exactly the one the declarative
      description names, in both directions. */
  lemma EquityChoice(m: map<Ticker, Mom>, e: Ticker)
    requires IsEquity(e)
    ensures Recommend(m).pick == Hold(e) <==> EquityWins(m, e)
  {
  }

  /** The description is unambiguous: at most one equity wins. */
  lemma AtMostOneWinner(m: map<Ticker, Mom>, a: Ticker, b: Ticker)
    requires EquityWins(m, a) && EquityWins(m, b)
    ensures a == b
  {
  }

  /** When both equities are present with the same positive score, CSPX.L is
      held: the fold keeps the first of two equal scores. */
  lemma TieGoesToFirst(m: map<Ticker, Mom>, v: real)
    requires CSPX in m && IWDA in m
    requires m[CSPX] == Num(v) && m[IWDA] == Num(v) && v > 0.0
    ensures Recommend(m) == Recommendation(Hold(CSPX), BestEquity(CSPX, v))
  {
    EquityChoice(m, CSPX);
  }

  /** An undefined CSPX.L score hides IWDA.AS whatever IWDA.AS scores: the
      fold keeps CSPX.L as its best, CSPX.L does not compare greater than
      zero, and the rule falls through to the bond, or to no pick. */
  lemma UndefinedFirstEquityMasksSecond(m: map<Ticker, Mom>)
    requires CSPX in m && m[CSPX] == Undefined
    ensures Recommend(m).pick == (if Bond in m then Hold(Bond) else NoPick)
  {
    EquityChoice(m, CSPX);
    EquityChoice(m, IWDA);
    assert !EquityWins(m, IWDA) by {
      assert IWDA in m ==> !Gt(m[IWDA], m[CSPX]);
    }
  }

  /** The bond is held exactly when it is present and no equity wins. */
  lemma BondFallback(m: map<Ticker, Mom>)
    ensures Recommend(m).pick == Hold(Bond) <==> Bond in m && NoEquityWins(m)
  {
    EquityChoice(m, CSPX);
    EquityChoice(m, IWDA);
    assert forall e :: EquityWins(m, e) ==> e == CSPX || e == IWDA;
  }

  /** There is no pick exactly when the bond is absent and no equity wins;
      the empty map is one such case. */
  lemma NoPickIff(m: map<Ticker, Mom>)
    ensures Recommend(m).pick == NoPick <==> Bond !in m && NoEquityWins(m)
    ensures m == map[] ==> Recommend(m) == Recommendation(NoPick, NoData)
  {
    EquityChoice(m, CSPX);
    EquityChoice(m, IWDA);
    assert forall e :: EquityWins(m, e) ==> e == CSPX || e == IWDA;
  }

  /** When the bond is held, the rationale lists every present equity with
      its score, CSPX.L first, or says that no equity data was present. The
      listed scores are the inputs as they are, undefined or even positive. */
  lemma BondRationale(m: map<Ticker, Mom>)
    requires Recommend(m).pick == Hold(Bond)
    ensures CSPX in m || IWDA in m ==>
              Recommend(m).reason == NoPositiveEquity((if CSPX in m then [Reading(CSPX, m[CSPX])] else [])
                                                      + (if IWDA in m then [Reading(IWDA, m[IWDA])] else []))
    ensures CSPX !in m && IWDA !in m ==> Recommend(m).reason == NoEquityData
  {
  }

  /** The bond's own score is never consulted: replacing it, even with an
      undefined score, changes nothing. */
  lemma BondScoreIgnored(m: map<Ticker, Mom>, x: Mom)
    requires Bond in m
    ensures Recommend(m[Bond := x]) == Recommend(m)
  {
    var m' := m[Bond := x];
    assert PresentEquities(m') == PresentEquities(m);
  }

  /** Raising the score of the held equity keeps it held. */
  lemma WinnerStableUnderRaise(m: map<Ticker, Mom>, e: Ticker, v: real)
    requires IsEquity(e) && Recommend(m).pick == Hold(e)
    requires v >= m[e].value
    ensures Recommend(m[e := Num(v)]).pick == Hold(e)
  {
    var m' := m[e := Num(v)];
    EquityChoice(m, e);
    EquityChoice(m', e);
    assert forall o :: o != e ==> (o in m' <==> o in m) && (o in m ==> m'[o] == m[o]);
  }

  /** The returned ticker text is "" exactly when there is no pick, and
      otherwise it is the symbol of a key of the score map. */
  lemma TickerTextIsKeyOrEmpty(m: map<Ticker, Mom>)
    ensures TickerText(Recommend(m).pick) == "" <==> Recommend(m).pick == NoPick
    ensures Recommend(m).pick.Hold? ==>
              exists t :: t in m && Symbol(t) == TickerText(Recommend(m).pick)
  {
    var p := Recommend(m).pick;
    if p.Hold? {
      assert |Symbol(p.asset)| > 0;
      assert p.asset in m && Symbol(p.asset) == TickerText(p);
    }
  }

  /** Different tickers have different symbols, so the ticker text names the
      chosen instrument unambiguously. */
  lemma SymbolInjective(a: Ticker, b: Ticker)
    requires Symbol(a) == Symbol(b)
    ensures a == b
  {
  }

  /** The higher positive equity is held, with its score in the rationale. */
  lemma HigherPositiveEquityHeld()
    ensures Recommend(map[CSPX := Num(0.10), IWDA := Num(0.05)])
            == Recommendation(Hold(CSPX), BestEquity(CSPX, 0.10))
  {
    EquityChoice(map[CSPX := Num(0.10), IWDA := Num(0.05)], CSPX);
  }

  /** Two negative equities send the rule to the bond, whose own score is
      undefined here, with both equity scores in the rationale. */
  lemma NegativeEquitiesToBond()
    ensures Recommend(map[CSPX := Num(-0.05), IWDA := Num(-0.10), VUTY := Undefined])
            == Recommendation(Hold(VUTY), NoPositiveEquity([Reading(CSPX, Num(-0.05)), Reading(IWDA, Num(-0.10))]))
  {
    var m := map[CSPX := Num(-0.05), IWDA := Num(-0.10), VUTY := Undefined];
    BondFallback(m);
    EquityChoice(m, CSPX);
    EquityChoice(m, IWDA);
    BondRationale(m);
  }

  /** Two undefined equities and no bond give no pick. */
  lemma UndefinedEquitiesNoBond()
    ensures Recommend(map[CSPX := Undefined, IWDA := Undefined]) == Recommendation(NoPick, NoData)
  {
    UndefinedFirstEquityMasksSecond(map[CSPX := Undefined, IWDA := Undefined]);
  }

  /** With only the bond present, the bond is held for lack of equity data,
      whatever its own score. */
  lemma OnlyBondPresent(x: Mom)
    ensures Recommend(map[VUTY := x]) == Recommendation(Hold(VUTY), NoEquityData)
  {
    BondFallback(map[VUTY := x]);
  }

  /** An undefined CSPX.L score sends the rule to the bond although IWDA.AS
      is up 20%, and the rationale for "no positive equity returns" lists
      that 20%. */
  lemma UndefinedFirstEquityExample()
    ensures Recommend(map[CSPX := Undefined, IWDA := Num(0.2), VUTY := Num(0.0)])
            == Recommendation(Hold(VUTY), NoPositiveEquity([Reading(CSPX, Undefined), Reading(IWDA, Num(0.2))]))
  {
    var m := map[CSPX := Undefined, IWDA := Num(0.2), VUTY := Num(0.0)];
    UndefinedFirstEquityMasksSecond(m);
    BondRationale(m);
  }
}
