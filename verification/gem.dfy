/** The GEM decision rule: from the momentum scores of two equity trackers
    and one bond tracker, choose what to hold and why.

    The rule is stated the way the app computes it. The equities considered
    are those whose ticker is present in the score map, whether or not their
    score is defined; the best of them is found by Python's `max`, which keeps
    the running best unless a later score compares strictly greater; that best
    is held if its score compares greater than zero, and the bond is held
    otherwise, whatever its own score.
 */
module Gem {
  import opened Momentum

  /** The fixed instrument set: two ranked equity candidates and one bond. */
  datatype Ticker = CSPX | IWDA | VUTY

  /** The ticker symbol the app uses as a dictionary key. */
  function Symbol(t: Ticker): string {
    match t
    case CSPX => "CSPX.L"
    case IWDA => "IWDA.AS"
    case VUTY => "VUTY.L"
  }

  /** The display name of each ticker. */
  function DisplayName(t: Ticker): string {
    match t
    case CSPX => "iShares Core S&P 500 UCITS ETF (Acc)"
    case IWDA => "iShares Core MSCI World UCITS ETF (Acc)"
    case VUTY => "Vanguard USD Treasury Bond UCITS ETF (Acc)"
  }

  /** The equity candidates, in the order the rule scans them. */
  const Equities: seq<Ticker> := [CSPX, IWDA]

  /** The defensive instrument. */
  const Bond: Ticker := VUTY

  predicate IsEquity(t: Ticker) {
    t in Equities
  }

  /** One ticker with its score. */
  datatype Reading = Reading(ticker: Ticker, mom: Mom)

  /** Why the rule chose what it chose. The app renders each variant as a
      sentence; the model keeps the data the sentence is made from. */
  datatype Rationale =
    | BestEquity(equity: Ticker, momentum: real)   // the best equity and its positive score
    | NoPositiveEquity(scores: seq<Reading>)       // every equity considered, with its score
    | NoEquityData                                 // no equity ticker in the score map
    | NoData                                       // neither an equity to hold nor the bond

  /** The instrument to hold; `NoPick` is the app's empty ticker "". */
  datatype Pick = NoPick | Hold(asset: Ticker)

  datatype Recommendation = Recommendation(pick: Pick, reason: Rationale)

  /** The ticker text the app returns: "" or the chosen ticker's symbol. */
  function TickerText(p: Pick): string {
    match p
    case NoPick => ""
    case Hold(t) => Symbol(t)
  }

  /** The readings of the tickers of `order` that are keys of `m`; scores
      are copied as they are, defined or not. */
  function Present(order: seq<Ticker>, m: map<Ticker, Mom>): (r: seq<Reading>)
    ensures |r| <= |order|
    ensures forall i :: 0 <= i < |r| ==> r[i].ticker in order && r[i].ticker in m && r[i].mom == m[r[i].ticker]
    ensures forall t :: t in order && t in m ==> Reading(t, m[t]) in r
  {
    if |order| == 0 then []
    else
      var rest := Present(order[1..], m);
      assert forall t :: t in order[1..] ==> t in order;
      assert forall t :: t in order ==> t == order[0] || t in order[1..];
      if order[0] in m then [Reading(order[0], m[order[0]])] + rest else rest
  }

  /** The equities the rule considers: those present in `m`, first CSPX.L,
      then IWDA.AS, each with its score. */
  function PresentEquities(m: map<Ticker, Mom>): (eq: seq<Reading>)
    ensures eq == (if CSPX in m then [Reading(CSPX, m[CSPX])] else [])
                + (if IWDA in m then [Reading(IWDA, m[IWDA])] else [])
  {
    assert Equities[1..] == [IWDA] && [IWDA][1..] == [];
    assert Present([IWDA], m) == (if IWDA in m then [Reading(IWDA, m[IWDA])] else []) + Present([], m);
    Present(Equities, m)
  }

  /** Python's `max` with a key: a left fold over `rest` starting from `best`
      that moves to a later reading only when its score compares strictly
      greater than the running best. */
  function MaxFold(best: Reading, rest: seq<Reading>): (r: Reading)
    ensures r == best || r in rest
    ensures r != best ==> Gt(r.mom, best.mom)
    ensures best.mom.Undefined? ==> r == best
    ensures !Gt(best.mom, r.mom)
    ensures forall i :: 0 <= i < |rest| ==> !Gt(rest[i].mom, r.mom)
    decreases |rest|
  {
    if |rest| == 0 then best
    else MaxFold(if Gt(rest[0].mom, best.mom) then rest[0] else best, rest[1..])
  }

  /** When every score is defined, the fold returns the earliest reading
      with the greatest score: every reading before it scores strictly less,
      and none scores more. */
  lemma {:induction false} MaxFoldEarliestMaximum(best: Reading, rest: seq<Reading>)
    requires best.mom.Num?
    requires forall j :: 0 <= j < |rest| ==> rest[j].mom.Num?
    ensures var s, r := [best] + rest, MaxFold(best, rest);
            exists i :: 0 <= i < |s| && s[i] == r
                        && (forall j :: 0 <= j < i ==> s[j].mom.value < r.mom.value)
                        && (forall j :: 0 <= j < |s| ==> s[j].mom.value <= r.mom.value)
    decreases |rest|
  {
    var s, r := [best] + rest, MaxFold(best, rest);
    if |rest| == 0 {
      assert s[0] == r;
    } else {
      var next := if Gt(rest[0].mom, best.mom) then rest[0] else best;
      MaxFoldEarliestMaximum(next, rest[1..]);
      assert r == MaxFold(next, rest[1..]);
      var s' := [next] + rest[1..];
      var i' :| 0 <= i' < |s'| && s'[i'] == r
                && (forall j :: 0 <= j < i' ==> s'[j].mom.value < r.mom.value)
                && (forall j :: 0 <= j < |s'| ==> s'[j].mom.value <= r.mom.value);
      assert forall j :: 1 <= j < |s'| ==> s'[j] == s[j + 1];
      assert best.mom.value <= next.mom.value && rest[0].mom.value <= next.mom.value;
      assert forall j :: 0 <= j < |s| ==> s[j].mom.value <= r.mom.value by {
        forall j | 0 <= j < |s|
          ensures s[j].mom.value <= r.mom.value
        {
          if j >= 2 {
            assert s[j] == s'[j - 1];
          }
        }
      }
      if i' == 0 && next == best {
        assert s[0] == r;
      } else if i' == 0 {
        assert s[1] == r && best.mom.value < r.mom.value;
      } else {
        assert s[i' + 1] == r;
        assert forall j :: 0 <= j < i' + 1 ==> s[j].mom.value < r.mom.value by {
          forall j | 0 <= j < i' + 1
            ensures s[j].mom.value < r.mom.value
          {
            if j >= 2 {
              assert s[j] == s'[j - 1];
            } else {
              assert s'[0].mom.value < r.mom.value;
            }
          }
        }
      }
    }
  }

  /** The GEM rule. The chosen instrument is always a key of `m`; an equity
      is chosen only with a defined, positive score, and the rationale then
      names it with that score; the bond is chosen with the "no equity data"
      rationale exactly when no equity ticker is present; there is no pick
      exactly when the rationale is "no data". */
  function Recommend(m: map<Ticker, Mom>): (r: Recommendation)
    ensures r.pick.Hold? ==> r.pick.asset in m
    ensures r.pick.Hold? && IsEquity(r.pick.asset) ==>
              Positive(m[r.pick.asset]) && r.reason == BestEquity(r.pick.asset, m[r.pick.asset].value)
    ensures r.pick == Hold(Bond) ==> (r.reason == NoEquityData <==> CSPX !in m && IWDA !in m)
    ensures r.pick == NoPick <==> r.reason == NoData
  {
    var eq := PresentEquities(m);
    if |eq| > 0 && Positive(MaxFold(eq[0], eq[1..]).mom) then
      var best := MaxFold(eq[0], eq[1..]);
      Recommendation(Hold(best.ticker), BestEquity(best.ticker, best.mom.value))
    else if Bond in m then
      Recommendation(Hold(Bond), if |eq| > 0 then NoPositiveEquity(eq) else NoEquityData)
    else
      Recommendation(NoPick, NoData)
  }
}
